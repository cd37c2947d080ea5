/** The read-process-write loop of one direction (internal/bridge/bridge.go, `relay`). */
module Relay {
  import opened Prelude
  import opened Telnet
  import opened TelnetLaws

  datatype Cause = Error | BackendClosed | ClientClosed | UserEscaped

  /** What one Read returns: n bytes, and possibly an error together with them. */
  datatype ReadResult = ReadResult(data: seq<byte>, failed: bool)

  function Received(rs: seq<ReadResult>): seq<byte> {
    if rs == [] then [] else Received(rs[..|rs| - 1]) + rs[|rs| - 1].data
  }

  /** A connection as one relay sees it: the results its reads will have, and whether its i-th write
      is refused. A read past the script fails. */
  class Conn {
    const script: seq<ReadResult>
    const refuses: nat -> bool
    var got: seq<ReadResult>
    var offered: seq<byte>
    var writes: nat
    var broken: bool

    predicate Valid()
      reads this
    {
      got <= script
    }

    constructor (script: seq<ReadResult>, refuses: nat -> bool)
      ensures Valid() && got == [] && offered == [] && !broken
      ensures this.script == script
    {
      this.script, this.refuses := script, refuses;
      got, offered, writes, broken := [], [], 0, false;
    }

    method Read() returns (r: ReadResult)
      requires Valid()
      modifies this`got
      ensures Valid()
      ensures old(|got|) == |script| ==> r == ReadResult([], true) && got == old(got)
      ensures old(|got|) < |script| ==> r == script[old(|got|)] && got == old(got) + [r]
    {
      if |got| == |script| { return ReadResult([], true); }
      r := script[|got|];
      got := got + [r];
    }

    method Write(bytes: seq<byte>) returns (ok: bool)
      modifies this`offered, this`writes, this`broken
      ensures offered == old(offered) + bytes
      ensures broken == (old(broken) || !ok)
    {
      ok := !refuses(writes);
      writes := writes + 1;
      offered := offered + bytes;
      broken := broken || !ok;
    }
  }

  lemma ReceivedSnoc(rs: seq<ReadResult>, r: ReadResult)
    ensures Received(rs + [r]) == Received(rs) + r.data
  {
    assert (rs + [r])[..|rs|] == rs;
  }

  lemma ReadExtends(cfg: Config, before: seq<ReadResult>, r: ReadResult)
    requires !Feed(cfg, FRESH, Received(before)).escaped
    ensures var o := Feed(cfg, FRESH, Received(before));
            Feed(cfg, FRESH, Received(before + [r])) == Then(o, Feed(cfg, o.parser, r.data))
  {
    ReceivedSnoc(before, r);
    FeedAppend(cfg, FRESH, Received(before), r.data);
  }

  /** Every 3270 record carried by the bytes read, the unfinished one last. */
  function RecordsIn(rs: seq<ReadResult>): seq<seq<byte>> { All(RecordsOf(Parse(Received(rs)).tokens)) }

  /** The bytes are the encoding of every record before the first that begins with the AID. */
  ghost predicate StopsAtEscape(cfg: Config, rs: seq<ReadResult>, forward: seq<byte>) {
    exists n: nat :: StopsBefore(RecordsIn(rs), n, cfg.escapeAID, forward)
  }

  lemma EscapeReport(cfg: Config, rs: seq<ReadResult>)
    requires Feed(cfg, FRESH, Received(rs)).escaped
    ensures StopsAtEscape(cfg, rs, Feed(cfg, FRESH, Received(rs)).forward)
  {
    EscapeIsExact(cfg, Received(rs));
    var all := All(RecordsOf(Parse(Received(rs)).tokens));
    var n: nat :| StopsBefore(all, n, cfg.escapeAID, Feed(cfg, FRESH, Received(rs)).forward);
    assert StopsBefore(RecordsIn(rs), n, cfg.escapeAID, Feed(cfg, FRESH, Received(rs)).forward);
  }

  /** What a relay that ends with this cause has offered to either side, o being the meaning of
      everything it read. */
  predicate Reports(cfg: Config, cause: Cause, closeCause: Cause, o: Outcome, reply: seq<byte>, forward: seq<byte>) {
    && (cause == UserEscaped ==> o.escaped && reply == o.reply && forward == o.forward)
    && (cause == closeCause ==> !o.escaped && reply == o.reply && forward == o.forward)
    && (cause == Error ==> reply <= o.reply && forward <= o.forward)
  }

  /** Writes the reply back to src, then the forwardable data to dst; empty writes are skipped and
      nothing is written after a refused one. */
  method Deliver(src: Conn, dst: Conn, reply: seq<byte>, forward: seq<byte>) returns (ok: bool)
    requires src != dst && !src.broken && !dst.broken
    modifies src`offered, src`writes, src`broken, dst`offered, dst`writes, dst`broken
    ensures ok == (!src.broken && !dst.broken)
    ensures src.offered == old(src.offered) + reply
    ensures dst.offered == old(dst.offered) + (if src.broken then [] else forward)
  {
    ok := true;
    if |reply| > 0 { ok := src.Write(reply); }
    if ok && |forward| > 0 { ok := dst.Write(forward); }
  }

  /** The relay offers dst exactly what the grammar forwards of everything read, and answers src
      exactly what it answers. It reports an escape only when a record begins with the AID, and then
      dst has been offered exactly the records before it. It reports a close only after a failed
      read, with no escape among the bytes read and with the bytes of that read handled too. It
      reports an error only after a refused write. */
  method Relay(src: Conn, dst: Conn, p: TelnetProcessor, closeCause: Cause) returns (cause: Cause)
    requires src != dst
    requires src.Valid() && src.got == [] && src.offered == [] && !src.broken
    requires dst.offered == [] && !dst.broken
    requires p.Valid() && p.Snapshot() == FRESH
    requires closeCause == BackendClosed || closeCause == ClientClosed
    modifies src, dst, p
    ensures src.Valid() && cause in {Error, UserEscaped, closeCause}
    ensures Reports(p.cfg, cause, closeCause, Feed(p.cfg, FRESH, Received(src.got)), src.offered, dst.offered)
    ensures cause == UserEscaped ==> StopsAtEscape(p.cfg, src.got, dst.offered)
    ensures cause == closeCause ==> src.got == src.script || (src.got != [] && src.got[|src.got| - 1].failed)
    ensures cause == Error ==> src.broken || dst.broken
    ensures cause != Error ==> !src.broken && !dst.broken
  {
    ghost var o := Outcome(FRESH, [], [], false);
    while true
      invariant src.Valid() && p.Valid() && !src.broken && !dst.broken
      invariant o == Feed(p.cfg, FRESH, Received(src.got)) && !o.escaped
      invariant o.parser == p.Snapshot() && o.forward == dst.offered && o.reply == src.offered
      decreases |src.script| - |src.got|
    {
      ghost var before := src.got;
      var r := src.Read();
      if src.got != before { ReadExtends(p.cfg, before, r); }
      if |r.data| > 0 {
        o := Feed(p.cfg, FRESH, Received(src.got));
        var forward, reply, escaped := p.Process(r.data);
        assert o.parser == p.Snapshot() && o.escaped == escaped;
        assert o.forward == dst.offered + forward && o.reply == src.offered + reply;
        var ok := Deliver(src, dst, reply, forward);
        if !ok { return Error; }
        if escaped {
          EscapeReport(p.cfg, src.got);
          return UserEscaped;
        }
      } else {
        assert Feed(p.cfg, FRESH, Received(src.got)) == o by { assert Received(src.got) == Received(before); }
      }
      if r.failed { return closeCause; }
    }
  }

  // ---------------------------------------------------------------- the two directions

  /** Backend to client: the gateway answers the backend as a client with a terminal type, and watches
      for no escape. The only ends are the backend's close, after everything it sent has been offered to
      the user, and a refused write. */
  method BackendToClient(backend: Conn, client: Conn, termType: seq<byte>) returns (cause: Cause)
    requires backend != client && backend.Valid() && backend.got == [] && backend.offered == [] && !backend.broken
    requires client.offered == [] && !client.broken
    modifies backend, client
    ensures cause == BackendClosed || (cause == Error && (backend.broken || client.broken))
    ensures cause == BackendClosed ==>
              && client.offered == Framed(RecordsOf(Parse(Received(backend.got)).tokens))
              && backend.offered == Answers(Config(Client, termType, 0), Parse(Received(backend.got)).tokens)
  {
    var p := new TelnetProcessor(Config(Client, termType, 0));
    cause := Relay(backend, client, p, BackendClosed);
    EscapeIsExact(p.cfg, Received(backend.got));
    if cause == BackendClosed { WholeStream(p.cfg, Received(backend.got)); }
  }

  /** Client to backend: the gateway answers the terminal as a server without a terminal type, and watches
      for the escape. It ends by an escape exactly after the records before the first that begins with
      the AID, by the client's close only when no record does, or by a refused write. */
  method ClientToBackend(client: Conn, backend: Conn, aid: byte) returns (cause: Cause)
    requires backend != client && client.Valid() && client.got == [] && client.offered == [] && !client.broken
    requires backend.offered == [] && !backend.broken
    modifies backend, client
    ensures cause in {ClientClosed, UserEscaped} || (cause == Error && (backend.broken || client.broken))
    ensures cause == UserEscaped ==> exists n: nat :: StopsBefore(RecordsIn(client.got), n, aid, backend.offered)
    ensures cause == ClientClosed ==>
              && (aid != 0 && aid != IAC ==> forall r :: r in RecordsIn(client.got) ==> !Begins(r, aid))
              && backend.offered == Framed(RecordsOf(Parse(Received(client.got)).tokens))
              && client.offered == Answers(Config(Server, [], aid), Parse(Received(client.got)).tokens)
  {
    var p := new TelnetProcessor(Config(Server, [], aid));
    cause := Relay(client, backend, p, ClientClosed);
    EscapeIsExact(p.cfg, Received(client.got));
    if cause == ClientClosed { WholeStream(p.cfg, Received(client.got)); }
  }

  /** Without an escape every token read is answered. */
  lemma WholeStream(cfg: Config, s: seq<byte>)
    requires !Feed(cfg, FRESH, s).escaped
    ensures Feed(cfg, FRESH, s).reply == Answers(cfg, Parse(s).tokens)
  {
    ProcessorFollowsGrammar(cfg, s);
    assert Parse(s).tokens[..|Parse(s).tokens|] == Parse(s).tokens;
  }
}
