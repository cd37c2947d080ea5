/** One direction of a Telnet/TN3270 stream (internal/bridge/telnet.go).

    The specification is a grammar, not an automaton: a byte stream is the spelling of a
    sequence of `Token`s followed by an unfinished `Tail`. `Parse` finds that reading, and it is
    the only one (`ReadingIsUnique`). The processor class below is proved to forward, answer and
    escape as the tokens say (`ProcessorFollowsGrammar`). */
module Telnet {
  import opened Prelude

  const IAC: byte := 255
  const DONT: byte := 254
  const DO: byte := 253
  const WONT: byte := 252
  const WILL: byte := 251
  const SB: byte := 250
  const SE: byte := 240
  const EOR: byte := 239

  const OPT_BINARY: byte := 0
  const OPT_SGA: byte := 3
  const OPT_TERMTYPE: byte := 24
  const OPT_EOR: byte := 25

  const TT_IS: byte := 0
  const TT_SEND: byte := 1

  const AID_PA3: byte := 0x6B
  const MAX_SUBNEG_LEN := 1024

  datatype Role = Client | Server

  // ---------------------------------------------------------------- grammar

  datatype Token =
    | Data(b: byte)                              // b
    | Literal                                    // IAC IAC: the data byte 0xFF
    | EndRecord                                  // IAC EOR
    | Negotiation(cmd: byte, opt: byte)          // IAC WILL|WONT|DO|DONT opt
    | Subneg(payload: seq<byte>)                 // IAC SB stuffed-payload IAC SE
    | Abandoned(payload: seq<byte>, cut: byte)   // IAC SB stuffed-payload IAC cut
    | Other(cmd: byte)                           // IAC cmd, ignored

  datatype Tail =
    | Clean
    | AfterIAC
    | AfterCmd(cmd: byte)
    | InSub(payload: seq<byte>)
    | InSubIAC(payload: seq<byte>)

  datatype Reading = Reading(tokens: seq<Token>, tail: Tail)

  predicate IsNegotiation(b: byte) { b == WILL || b == WONT || b == DO || b == DONT }

  predicate WellFormedToken(t: Token) {
    match t
    case Data(b) => b != IAC
    case Negotiation(cmd, _) => IsNegotiation(cmd)
    case Abandoned(_, cut) => cut != IAC && cut != SE
    case Other(cmd) => cmd != IAC && cmd != EOR && cmd != SB && !IsNegotiation(cmd)
    case _ => true
  }

  predicate WellFormedTail(t: Tail) { t.AfterCmd? ==> IsNegotiation(t.cmd) }

  predicate WellFormed(r: Reading) {
    && (forall i :: 0 <= i < |r.tokens| ==> WellFormedToken(r.tokens[i]))
    && WellFormedTail(r.tail)
  }

  /** Doubles every 0xFF. */
  function Stuff(p: seq<byte>): seq<byte> {
    if p == [] then []
    else Stuff(p[..|p| - 1]) + (if p[|p| - 1] == IAC then [IAC, IAC] else [p[|p| - 1]])
  }

  function SpellToken(t: Token): seq<byte> {
    match t
    case Data(b) => [b]
    case Literal => [IAC, IAC]
    case EndRecord => [IAC, EOR]
    case Negotiation(cmd, opt) => [IAC, cmd, opt]
    case Subneg(p) => [IAC, SB] + Stuff(p) + [IAC, SE]
    case Abandoned(p, cut) => [IAC, SB] + Stuff(p) + [IAC, cut]
    case Other(cmd) => [IAC, cmd]
  }

  function SpellTokens(ts: seq<Token>): seq<byte> {
    if ts == [] then [] else SpellTokens(ts[..|ts| - 1]) + SpellToken(ts[|ts| - 1])
  }

  function SpellTail(t: Tail): seq<byte> {
    match t
    case Clean => []
    case AfterIAC => [IAC]
    case AfterCmd(cmd) => [IAC, cmd]
    case InSub(p) => [IAC, SB] + Stuff(p)
    case InSubIAC(p) => [IAC, SB] + Stuff(p) + [IAC]
  }

  function Spell(r: Reading): seq<byte> { SpellTokens(r.tokens) + SpellTail(r.tail) }

  /** What one more byte does after an unfinished token: completes it, or leaves it unfinished. */
  datatype Advance = Emit(token: Token) | Stay(tail: Tail)

  function Next(tail: Tail, b: byte): Advance {
    match tail
    case Clean => if b == IAC then Stay(AfterIAC) else Emit(Data(b))
    case AfterIAC =>
      if b == IAC then Emit(Literal)
      else if b == EOR then Emit(EndRecord)
      else if IsNegotiation(b) then Stay(AfterCmd(b))
      else if b == SB then Stay(InSub([]))
      else Emit(Other(b))
    case AfterCmd(cmd) => Emit(Negotiation(cmd, b))
    case InSub(p) => if b == IAC then Stay(InSubIAC(p)) else Stay(InSub(p + [b]))
    case InSubIAC(p) =>
      if b == SE then Emit(Subneg(p))
      else if b == IAC then Stay(InSub(p + [IAC]))
      else Emit(Abandoned(p, b))
  }

  /** The reading of a stream one byte longer. */
  function Extend(r: Reading, b: byte): Reading {
    match Next(r.tail, b)
    case Emit(t) => Reading(r.tokens + [t], Clean)
    case Stay(tail) => Reading(r.tokens, tail)
  }

  function Parse(s: seq<byte>): Reading {
    if s == [] then Reading([], Clean) else Extend(Parse(s[..|s| - 1]), s[|s| - 1])
  }

  lemma SpellTokensSnoc(ts: seq<Token>, t: Token)
    ensures SpellTokens(ts + [t]) == SpellTokens(ts) + SpellToken(t)
  {
    assert (ts + [t])[..|ts|] == ts;
  }

  lemma StuffSnoc(p: seq<byte>, b: byte)
    ensures Stuff(p + [b]) == Stuff(p) + (if b == IAC then [IAC, IAC] else [b])
  {
    assert (p + [b])[..|p|] == p;
  }

  lemma NextSpells(tail: Tail, b: byte)
    requires WellFormedTail(tail)
    ensures match Next(tail, b)
            case Emit(t) => WellFormedToken(t) && SpellToken(t) == SpellTail(tail) + [b]
            case Stay(longer) => WellFormedTail(longer) && SpellTail(longer) == SpellTail(tail) + [b]
  {
    match tail {
      case InSub(p) =>
        if b != IAC {
          StuffSnoc(p, b);
          assert [IAC, SB] + (Stuff(p) + [b]) == [IAC, SB] + Stuff(p) + [b];
        }
      case InSubIAC(p) =>
        StuffSnoc(p, IAC);
        assert [IAC, SB] + (Stuff(p) + [IAC, IAC]) == [IAC, SB] + Stuff(p) + [IAC] + [IAC];
        assert [IAC, SB] + Stuff(p) + [IAC, b] == [IAC, SB] + Stuff(p) + [IAC] + [b];
      case _ =>
    }
  }

  lemma ExtendSpells(r: Reading, b: byte)
    requires WellFormed(r)
    ensures WellFormed(Extend(r, b))
    ensures Spell(Extend(r, b)) == Spell(r) + [b]
  {
    NextSpells(r.tail, b);
    match Next(r.tail, b) {
      case Emit(t) => SpellTokensSnoc(r.tokens, t);
      case Stay(_) =>
    }
  }

  lemma ParseSnoc(u: seq<byte>, b: byte)
    ensures Parse(u + [b]) == Extend(Parse(u), b)
  {
    assert (u + [b])[..|u|] == u;
  }

  /** The reading spells the stream. */
  predicate Reads(r: Reading, s: seq<byte>) { WellFormed(r) && Spell(r) == s }

  lemma ReadsSnoc(u: seq<byte>, b: byte)
    requires Reads(Parse(u), u)
    ensures Reads(Parse(u + [b]), u + [b])
  {
    ParseSnoc(u, b);
    ExtendSpells(Parse(u), b);
  }

  lemma {:induction false} ParseReads(s: seq<byte>)
    ensures Reads(Parse(s), s)
  {
    if s != [] {
      ParseReads(s[..|s| - 1]);
      ReadsSnoc(s[..|s| - 1], s[|s| - 1]);
      InitLast(s);
    }
  }

  /** Every byte stream has a reading. */
  lemma ParseSpells(s: seq<byte>)
    ensures WellFormed(Parse(s)) && Spell(Parse(s)) == s
  {
    ParseReads(s);
  }

  /** The reading of a stream one byte shorter. */
  function Retract(r: Reading): Reading
    requires r.tokens != [] || r.tail != Clean
  {
    match r.tail
    case Clean =>
      var ts, t := r.tokens[..|r.tokens| - 1], r.tokens[|r.tokens| - 1];
      Reading(ts, match t
                  case Data(_) => Clean
                  case Negotiation(cmd, _) => AfterCmd(cmd)
                  case Subneg(p) => InSubIAC(p)
                  case Abandoned(p, _) => InSubIAC(p)
                  case _ => AfterIAC)
    case AfterIAC => Reading(r.tokens, Clean)
    case AfterCmd(_) => Reading(r.tokens, AfterIAC)
    case InSub(p) =>
      if p == [] then Reading(r.tokens, AfterIAC)
      else if p[|p| - 1] == IAC then Reading(r.tokens, InSubIAC(p[..|p| - 1]))
      else Reading(r.tokens, InSub(p[..|p| - 1]))
    case InSubIAC(p) => Reading(r.tokens, InSub(p))
  }

  function LastByte(r: Reading): byte
    requires r.tokens != [] || r.tail != Clean
  {
    match r.tail
    case Clean =>
      (match r.tokens[|r.tokens| - 1]
       case Data(b) => b
       case Literal => IAC
       case EndRecord => EOR
       case Negotiation(_, opt) => opt
       case Subneg(_) => SE
       case Abandoned(_, cut) => cut
       case Other(cmd) => cmd)
    case AfterIAC => IAC
    case AfterCmd(cmd) => cmd
    case InSub(p) => if p == [] then SB else p[|p| - 1]
    case InSubIAC(_) => IAC
  }

  lemma RetractExtend(r: Reading)
    requires WellFormed(r)
    requires r.tokens != [] || r.tail != Clean
    ensures WellFormed(Retract(r))
    ensures Extend(Retract(r), LastByte(r)) == r
  {
    if r.tail.InSub? && r.tail.payload != [] {
      var p := r.tail.payload;
      assert p == p[..|p| - 1] + [p[|p| - 1]];
    }
    if r.tail.Clean? {
      assert r.tokens == r.tokens[..|r.tokens| - 1] + [r.tokens[|r.tokens| - 1]];
    }
  }

  /** A stream has no other reading than the one `Parse` finds. */
  lemma {:induction false} ReadingIsUnique(r: Reading)
    requires WellFormed(r)
    ensures Parse(Spell(r)) == r
    decreases |Spell(r)|
  {
    if r.tokens != [] || r.tail != Clean {
      var q, b := Retract(r), LastByte(r);
      RetractExtend(r);
      ExtendSpells(q, b);
      assert Spell(r) == Spell(q) + [b];
      ReadingIsUnique(q);
      assert Spell(r)[..|Spell(r)| - 1] == Spell(q);
    }
  }

  // ---------------------------------------------------------------- meaning of the tokens

  /** The 3270 records a token sequence carries: those closed by IAC EOR and the one still open. */
  datatype Records = Records(closed: seq<seq<byte>>, open: seq<byte>)

  function RecordsOf(ts: seq<Token>): Records {
    if ts == [] then Records([], []) else AddToken(RecordsOf(ts[..|ts| - 1]), ts[|ts| - 1])
  }

  function AddToken(r: Records, t: Token): Records {
    match t
    case Data(b) => r.(open := r.open + [b])
    case Literal => r.(open := r.open + [IAC])
    case EndRecord => Records(r.closed + [r.open], [])
    case _ => r
  }

  function Encode(records: seq<seq<byte>>): seq<byte> {
    if records == [] then []
    else Encode(records[..|records| - 1]) + Stuff(records[|records| - 1]) + [IAC, EOR]
  }

  /** The bytes that carry these records on the peer leg. */
  function Framed(r: Records): seq<byte> { Encode(r.closed) + Stuff(r.open) }

  predicate Agreeable(role: Role, opt: byte) {
    opt == OPT_BINARY || opt == OPT_EOR || opt == OPT_SGA || (opt == OPT_TERMTYPE && role == Client)
  }

  datatype Config = Config(role: Role, termType: seq<byte>, escapeAID: byte)

  /** The bytes written back for one token: an answer to each DO and WILL, and one IS for each
      complete subnegotiation that fits the buffer and asks for the terminal type. */
  function Answer(cfg: Config, t: Token): seq<byte> {
    match t
    case Negotiation(cmd, opt) =>
      if cmd == DO then [IAC, if Agreeable(cfg.role, opt) then WILL else WONT, opt]
      else if cmd == WILL then [IAC, if Agreeable(cfg.role, opt) then DO else DONT, opt]
      else []
    case Subneg(p) =>
      if 2 <= |p| <= MAX_SUBNEG_LEN && p[0] == OPT_TERMTYPE && p[1] == TT_SEND
      then [IAC, SB, OPT_TERMTYPE, TT_IS] + cfg.termType + [IAC, SE]
      else []
    case _ => []
  }

  function Answers(cfg: Config, ts: seq<Token>): seq<byte> {
    if ts == [] then [] else Answers(cfg, ts[..|ts| - 1]) + Answer(cfg, ts[|ts| - 1])
  }

  predicate IsEscape(aid: byte, before: seq<Token>, t: Token) {
    aid != 0 && t == Data(aid) && RecordsOf(before).open == []
  }

  /** Index of the first escape token, or |ts| when there is none. */
  function EscapeAt(aid: byte, ts: seq<Token>): (k: nat)
    ensures k <= |ts|
    ensures k < |ts| ==> IsEscape(aid, ts[..k], ts[k])
    ensures forall i :: 0 <= i < k ==> !IsEscape(aid, ts[..i], ts[i])
  {
    if ts == [] then 0
    else
      var n := |ts| - 1;
      var k := EscapeAt(aid, ts[..n]);
      assert forall i :: 0 <= i < n ==> ts[..n][..i] == ts[..i];
      if k < n then k else if IsEscape(aid, ts[..n], ts[n]) then n else n + 1
  }

  // ---------------------------------------------------------------- the processor's state function

  datatype PState = StData | StIAC | StOption | StSubData | StSubIAC

  datatype Parser = Parser(state: PState, optCmd: byte, subneg: seq<byte>, overflow: bool, atRecStart: bool)

  const FRESH := Parser(StData, 0, [], false, true)

  datatype Outcome = Outcome(parser: Parser, forward: seq<byte>, reply: seq<byte>, escaped: bool)

  function Collect(p: Parser, b: byte): Parser {
    if p.overflow then p
    else if |p.subneg| < MAX_SUBNEG_LEN then p.(subneg := p.subneg + [b])
    else p.(overflow := true)
  }

  function SubnegReply(cfg: Config, payload: seq<byte>): seq<byte> {
    if |payload| >= 2 && payload[0] == OPT_TERMTYPE && payload[1] == TT_SEND
    then [IAC, SB, OPT_TERMTYPE, TT_IS] + cfg.termType + [IAC, SE]
    else []
  }

  function Negotiate(cfg: Config, cmd: byte, opt: byte): seq<byte> {
    if cmd == DO then (if Agreeable(cfg.role, opt) then [IAC, WILL, opt] else [IAC, WONT, opt])
    else if cmd == WILL then (if Agreeable(cfg.role, opt) then [IAC, DO, opt] else [IAC, DONT, opt])
    else []
  }

  function Step(cfg: Config, p: Parser, b: byte): Outcome {
    match p.state
    case StData =>
      if b == IAC then Outcome(p.(state := StIAC), [], [], false)
      else if p.atRecStart && cfg.escapeAID != 0 && b == cfg.escapeAID
      then Outcome(p.(atRecStart := false), [], [], true)
      else Outcome(p.(atRecStart := false), [b], [], false)
    case StIAC =>
      if b == IAC then Outcome(p.(state := StData, atRecStart := false), [IAC, IAC], [], false)
      else if b == EOR then Outcome(p.(state := StData, atRecStart := true), [IAC, EOR], [], false)
      else if IsNegotiation(b) then Outcome(p.(state := StOption, optCmd := b), [], [], false)
      else if b == SB then Outcome(p.(state := StSubData, subneg := [], overflow := false), [], [], false)
      else Outcome(p.(state := StData), [], [], false)
    case StOption => Outcome(p.(state := StData), [], Negotiate(cfg, p.optCmd, b), false)
    case StSubData =>
      if b == IAC then Outcome(p.(state := StSubIAC), [], [], false)
      else Outcome(Collect(p, b), [], [], false)
    case StSubIAC =>
      if b == SE then
        Outcome(p.(state := StData), [], if p.overflow then [] else SubnegReply(cfg, p.subneg), false)
      else if b == IAC then Outcome(Collect(p, IAC).(state := StSubData), [], [], false)
      else Outcome(p.(state := StData), [], [], false)
  }

  /** The effect of a whole input; nothing after an escape is looked at. */
  function Feed(cfg: Config, p: Parser, s: seq<byte>): Outcome {
    if s == [] then Outcome(p, [], [], false) else After(cfg, Feed(cfg, p, s[..|s| - 1]), s[|s| - 1])
  }

  lemma FeedSnoc(cfg: Config, p: Parser, s: seq<byte>, b: byte)
    ensures Feed(cfg, p, s + [b]) == After(cfg, Feed(cfg, p, s), b)
  {
    assert (s + [b])[..|s|] == s;
  }

  function After(cfg: Config, o: Outcome, b: byte): Outcome {
    if o.escaped then o
    else
      var e := Step(cfg, o.parser, b);
      Outcome(e.parser, o.forward + e.forward, o.reply + e.reply, e.escaped)
  }

  /** Two outcomes in a row. */
  function Then(a: Outcome, b: Outcome): Outcome {
    Outcome(b.parser, a.forward + b.forward, a.reply + b.reply, b.escaped)
  }

  lemma ThenSnoc(cfg: Config, x: Outcome, y: Outcome, b: byte)
    requires !x.escaped
    ensures After(cfg, Then(x, y), b) == Then(x, After(cfg, y, b))
  {
    if !y.escaped {
      var e := Step(cfg, y.parser, b);
      assert (x.forward + y.forward) + e.forward == x.forward + (y.forward + e.forward);
      assert (x.reply + y.reply) + e.reply == x.reply + (y.reply + e.reply);
    }
  }

  /** Cutting the input anywhere makes no difference. */
  lemma {:induction false} FeedAppend(cfg: Config, p: Parser, s: seq<byte>, t: seq<byte>)
    ensures Feed(cfg, p, s + t) ==
            if Feed(cfg, p, s).escaped then Feed(cfg, p, s)
            else Then(Feed(cfg, p, s), Feed(cfg, Feed(cfg, p, s).parser, t))
    decreases |t|
  {
    if t == [] {
      assert s + t == s;
    } else {
      var u, b := t[..|t| - 1], t[|t| - 1];
      assert s + t == (s + u) + [b] && t == u + [b];
      FeedAppend(cfg, p, s, u);
      FeedSnoc(cfg, p, s + u, b);
      FeedSnoc(cfg, Feed(cfg, p, s).parser, u, b);
      if !Feed(cfg, p, s).escaped {
        ThenSnoc(cfg, Feed(cfg, p, s), Feed(cfg, Feed(cfg, p, s).parser, u), b);
      }
    }
  }

  lemma NothingAfterEscape(cfg: Config, p: Parser, s: seq<byte>, i: nat)
    requires i <= |s| && Feed(cfg, p, s[..i]).escaped
    ensures Feed(cfg, p, s) == Feed(cfg, p, s[..i])
  {
    assert s[..i] + s[i..] == s;
    FeedAppend(cfg, p, s[..i], s[i..]);
  }

  function Concat(chunks: seq<seq<byte>>): seq<byte> {
    if chunks == [] then [] else Concat(chunks[..|chunks| - 1]) + chunks[|chunks| - 1]
  }

  /** One `Process` call per chunk, up to the first that escapes, outputs concatenated. */
  function FeedChunks(cfg: Config, p: Parser, chunks: seq<seq<byte>>): Outcome {
    if chunks == [] then Outcome(p, [], [], false)
    else
      var o := FeedChunks(cfg, p, chunks[..|chunks| - 1]);
      if o.escaped then o else Then(o, Feed(cfg, o.parser, chunks[|chunks| - 1]))
  }

  lemma {:induction false} ChunkingIsInvisible(cfg: Config, p: Parser, chunks: seq<seq<byte>>)
    ensures FeedChunks(cfg, p, chunks) == Feed(cfg, p, Concat(chunks))
  {
    if chunks != [] {
      var c := chunks[..|chunks| - 1];
      ChunkingIsInvisible(cfg, p, c);
      FeedAppend(cfg, p, Concat(c), chunks[|chunks| - 1]);
    }
  }

  // ---------------------------------------------------------------- the processor refines the grammar

  /** The part of the state that later bytes can observe is what the reading says. */
  predicate Represents(p: Parser, r: Reading) {
    && p.atRecStart == (RecordsOf(r.tokens).open == [])
    && match r.tail
       case Clean => p.state == StData
       case AfterIAC => p.state == StIAC
       case AfterCmd(cmd) => p.state == StOption && p.optCmd == cmd
       case InSub(q) => p.state == StSubData && Holds(p, q)
       case InSubIAC(q) => p.state == StSubIAC && Holds(p, q)
  }

  /** The bounded buffer holds the first bytes of payload q and knows whether q overran it. */
  predicate Holds(p: Parser, q: seq<byte>) {
    && p.overflow == (|q| > MAX_SUBNEG_LEN)
    && p.subneg == if |q| <= MAX_SUBNEG_LEN then q else q[..MAX_SUBNEG_LEN]
  }

  ghost predicate Follows(cfg: Config, o: Outcome, r: Reading) {
    var k := EscapeAt(cfg.escapeAID, r.tokens);
    && o.forward == Framed(RecordsOf(r.tokens[..k]))
    && o.reply == Answers(cfg, r.tokens[..k])
    && o.escaped == (k < |r.tokens|)
    && (!o.escaped ==> Represents(o.parser, r))
  }

  lemma CollectHolds(p: Parser, q: seq<byte>, b: byte)
    requires Holds(p, q)
    ensures Holds(Collect(p, b), q + [b])
  {
  }

  lemma RecordsSnoc(ts: seq<Token>, t: Token)
    ensures RecordsOf(ts + [t]) == AddToken(RecordsOf(ts), t)
  {
    assert (ts + [t])[..|ts|] == ts;
  }

  /** No data has been read since the last end of record, once t has been read. */
  predicate StartsRecord(r: Records, t: Token) {
    t.EndRecord? || (!t.Data? && !t.Literal? && r.open == [])
  }

  lemma RecordStartSnoc(ts: seq<Token>, t: Token)
    ensures (RecordsOf(ts + [t]).open == []) == StartsRecord(RecordsOf(ts), t)
  {
    RecordsSnoc(ts, t);
  }

  lemma EncodeSnoc(records: seq<seq<byte>>, r: seq<byte>)
    ensures Encode(records + [r]) == Encode(records) + Stuff(r) + [IAC, EOR]
  {
    assert (records + [r])[..|records|] == records;
  }

  function Visible(t: Token): seq<byte> {
    if t.Data? || t.Literal? || t.EndRecord? then SpellToken(t) else []
  }

  lemma FramedSnoc(ts: seq<Token>, t: Token)
    requires WellFormedToken(t)
    ensures Framed(RecordsOf(ts + [t])) == Framed(RecordsOf(ts)) + Visible(t)
  {
    RecordsSnoc(ts, t);
    var r := RecordsOf(ts);
    match t {
      case Data(b) => StuffSnoc(r.open, b);
      case Literal => StuffSnoc(r.open, IAC);
      case EndRecord => EncodeSnoc(r.closed, r.open);
      case _ =>
    }
  }

  lemma AnswersSnoc(cfg: Config, ts: seq<Token>, t: Token)
    ensures Answers(cfg, ts + [t]) == Answers(cfg, ts) + Answer(cfg, t)
  {
    assert (ts + [t])[..|ts|] == ts;
  }

  lemma EscapeAtSnoc(aid: byte, ts: seq<Token>, t: Token)
    ensures var k := EscapeAt(aid, ts);
            EscapeAt(aid, ts + [t]) == if k < |ts| || IsEscape(aid, ts, t) then k else k + 1
  {
    assert (ts + [t])[..|ts|] == ts;
  }

  /** What one step does when the byte completes token t: the token decides everything. */
  lemma StepEmits(cfg: Config, p: Parser, r: Reading, b: byte)
    requires WellFormed(r) && Represents(p, r) && Next(r.tail, b).Emit?
    ensures var t := Next(r.tail, b).token;
            var e := Step(cfg, p, b);
            && e.escaped == IsEscape(cfg.escapeAID, r.tokens, t)
            && e.forward == (if e.escaped then [] else Visible(t))
            && e.reply == Answer(cfg, t)
            && (!e.escaped ==> e.parser.state == StData)
            && (!e.escaped ==> e.parser.atRecStart == StartsRecord(RecordsOf(r.tokens), t))
  {
  }

  /** No escape so far: every token read has been carried out. */
  ghost predicate InStep(cfg: Config, o: Outcome, r: Reading) {
    && !o.escaped && EscapeAt(cfg.escapeAID, r.tokens) == |r.tokens|
    && o.forward == Framed(RecordsOf(r.tokens)) && o.reply == Answers(cfg, r.tokens) && Represents(o.parser, r)
  }

  lemma InStepFollows(cfg: Config, o: Outcome, r: Reading)
    ensures InStep(cfg, o, r) <==> Follows(cfg, o, r) && !o.escaped
  {
    assert r.tokens[..|r.tokens|] == r.tokens;
  }

  /** A byte that completes the escape token. */
  lemma EscapeFollows(cfg: Config, o: Outcome, r: Reading, b: byte)
    requires WellFormed(r) && InStep(cfg, o, r) && Next(r.tail, b).Emit?
    requires IsEscape(cfg.escapeAID, r.tokens, Next(r.tail, b).token)
    ensures Follows(cfg, After(cfg, o, b), Extend(r, b))
  {
    var t := Next(r.tail, b).token;
    StepEmits(cfg, o.parser, r, b);
    EscapeAtSnoc(cfg.escapeAID, r.tokens, t);
    assert (r.tokens + [t])[..|r.tokens|] == r.tokens;
    assert Answer(cfg, t) == [];
  }

  /** A byte that completes any other token. */
  lemma TokenFollows(cfg: Config, o: Outcome, r: Reading, b: byte)
    requires WellFormed(r) && InStep(cfg, o, r) && Next(r.tail, b).Emit?
    requires !IsEscape(cfg.escapeAID, r.tokens, Next(r.tail, b).token)
    ensures InStep(cfg, After(cfg, o, b), Extend(r, b))
  {
    var t := Next(r.tail, b).token;
    StepEmits(cfg, o.parser, r, b);
    NextSpells(r.tail, b);
    EscapeAtSnoc(cfg.escapeAID, r.tokens, t);
    FramedSnoc(r.tokens, t);
    AnswersSnoc(cfg, r.tokens, t);
    RecordStartSnoc(r.tokens, t);
  }

  lemma StepStays(cfg: Config, p: Parser, r: Reading, b: byte)
    requires WellFormed(r) && Represents(p, r) && Next(r.tail, b).Stay?
    ensures var e := Step(cfg, p, b);
            !e.escaped && e.forward == [] && e.reply == [] && Represents(e.parser, Extend(r, b))
  {
    if r.tail.InSub? && b != IAC { CollectHolds(p, r.tail.payload, b); }
    if r.tail.InSubIAC? && b == IAC { CollectHolds(p, r.tail.payload, IAC); }
  }

  /** A byte that leaves the token unfinished. */
  lemma StayFollows(cfg: Config, o: Outcome, r: Reading, b: byte)
    requires WellFormed(r) && InStep(cfg, o, r) && Next(r.tail, b).Stay?
    ensures InStep(cfg, After(cfg, o, b), Extend(r, b))
  {
    StepStays(cfg, o.parser, r, b);
    assert Extend(r, b).tokens == r.tokens;
  }

  /** One more byte before any escape. */
  lemma ByteFollows(cfg: Config, o: Outcome, r: Reading, b: byte)
    requires WellFormed(r) && Follows(cfg, o, r) && !o.escaped
    ensures Follows(cfg, After(cfg, o, b), Extend(r, b))
  {
    InStepFollows(cfg, o, r);
    if Next(r.tail, b).Stay? {
      StayFollows(cfg, o, r, b);
      InStepFollows(cfg, After(cfg, o, b), Extend(r, b));
    } else if IsEscape(cfg.escapeAID, r.tokens, Next(r.tail, b).token) {
      EscapeFollows(cfg, o, r, b);
    } else {
      TokenFollows(cfg, o, r, b);
      InStepFollows(cfg, After(cfg, o, b), Extend(r, b));
    }
  }

  lemma EscapedFollows(cfg: Config, o: Outcome, r: Reading, b: byte)
    requires Follows(cfg, o, r) && o.escaped
    ensures Follows(cfg, o, Extend(r, b))
  {
    match Next(r.tail, b) {
      case Emit(t) =>
        EscapeAtSnoc(cfg.escapeAID, r.tokens, t);
        var k := EscapeAt(cfg.escapeAID, r.tokens);
        assert (r.tokens + [t])[..k] == r.tokens[..k];
      case Stay(_) =>
    }
  }

  /** For every input a fresh processor forwards exactly the framing of the records read before the
      first escape, answers exactly the tokens read before it, and stops in the state the grammar
      names. */
  lemma {:induction false} ProcessorFollowsGrammar(cfg: Config, s: seq<byte>)
    ensures WellFormed(Parse(s)) && Spell(Parse(s)) == s
    ensures Follows(cfg, Feed(cfg, FRESH, s), Parse(s))
  {
    ParseSpells(s);
    if s != [] {
      var u, b := s[..|s| - 1], s[|s| - 1];
      ProcessorFollowsGrammar(cfg, u);
      var o := Feed(cfg, FRESH, u);
      if o.escaped { EscapedFollows(cfg, o, Parse(u), b); } else { ByteFollows(cfg, o, Parse(u), b); }
    }
  }

  // ---------------------------------------------------------------- the processor itself

  class TelnetProcessor {
    const cfg: Config
    var state: PState
    var optCmd: byte
    var subneg: seq<byte>
    var subnegOverflow: bool
    var atRecStart: bool

    function Snapshot(): Parser
      reads this
    {
      Parser(state, optCmd, subneg, subnegOverflow, atRecStart)
    }

    predicate Valid()
      reads this
    {
      |subneg| <= MAX_SUBNEG_LEN
    }

    constructor (cfg: Config)
      ensures this.cfg == cfg && Valid() && Snapshot() == FRESH
    {
      this.cfg := cfg;
      state, optCmd, subneg, subnegOverflow, atRecStart := StData, 0, [], false, true;
    }

    method Process(input: seq<byte>) returns (forward: seq<byte>, reply: seq<byte>, escaped: bool)
      requires Valid()
      modifies this
      ensures Valid()
      ensures Outcome(Snapshot(), forward, reply, escaped) == Feed(cfg, old(Snapshot()), input)
    {
      forward, reply, escaped := [], [], false;
      var i := 0;
      while i < |input|
        invariant 0 <= i <= |input|
        invariant Valid() && !escaped
        invariant Outcome(Snapshot(), forward, reply, false) == Feed(cfg, old(Snapshot()), input[..i])
      {
        var b := input[i];
        assert input[..i + 1] == input[..i] + [b];
        FeedSnoc(cfg, old(Snapshot()), input[..i], b);
        i := i + 1;
        match state {
          case StData =>
            if b == IAC {
              state := StIAC;
              continue;
            }
            if atRecStart {
              atRecStart := false;
              if cfg.escapeAID != 0 && b == cfg.escapeAID {
                NothingAfterEscape(cfg, old(Snapshot()), input, i);
                return forward, reply, true;
              }
            }
            forward := forward + [b];
          case StIAC =>
            if b == IAC {
              if atRecStart { atRecStart := false; }
              forward := forward + [IAC, IAC];
              state := StData;
            } else if b == EOR {
              forward := forward + [IAC, EOR];
              atRecStart := true;
              state := StData;
            } else if b == WILL || b == WONT || b == DO || b == DONT {
              optCmd := b;
              state := StOption;
            } else if b == SB {
              subneg := [];
              subnegOverflow := false;
              state := StSubData;
            } else {
              state := StData;
            }
          case StOption =>
            reply := reply + Negotiate(cfg, optCmd, b);
            state := StData;
          case StSubData =>
            if b == IAC {
              state := StSubIAC;
            } else if !subnegOverflow {
              if |subneg| < MAX_SUBNEG_LEN {
                subneg := subneg + [b];
              } else {
                subnegOverflow := true;
              }
            }
          case StSubIAC =>
            if b == SE {
              if !subnegOverflow {
                reply := reply + SubnegReply(cfg, subneg);
              }
              state := StData;
            } else if b == IAC {
              if !subnegOverflow {
                if |subneg| < MAX_SUBNEG_LEN {
                  subneg := subneg + [IAC];
                } else {
                  subnegOverflow := true;
                }
              }
              state := StSubData;
            } else {
              state := StData;
            }
        }
      }
      assert input[..i] == input;
    }
  }
}
