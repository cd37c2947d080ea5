/** What the processor promises about whole streams of 3270 records
    (internal/bridge/telnet.go and the design notes in internal/bridge/bridge.go). */
module TelnetLaws {
  import opened Prelude
  import opened Telnet

  /** Every record of the stream in order, the one still open last. */
  function All(r: Records): seq<seq<byte>> { r.closed + [r.open] }

  predicate Begins(record: seq<byte>, aid: byte) { record != [] && record[0] == aid }

  // ---------------------------------------------------------------- escape

  lemma {:induction false} RecordsGrow(ts: seq<Token>, i: nat)
    requires i <= |ts|
    ensures RecordsOf(ts[..i]).closed <= RecordsOf(ts).closed
    ensures RecordsOf(ts[..i]).open <= All(RecordsOf(ts))[|RecordsOf(ts[..i]).closed|]
  {
    if i == |ts| {
      assert ts[..i] == ts;
    } else {
      var u, t := ts[..|ts| - 1], ts[|ts| - 1];
      assert u[..i] == ts[..i];
      RecordsGrow(u, i);
    }
  }

  lemma {:induction false} NoEscapeNoRecord(aid: byte, ts: seq<Token>)
    requires aid != 0 && aid != IAC
    requires EscapeAt(aid, ts) == |ts|
    ensures forall n :: 0 <= n < |All(RecordsOf(ts))| ==> !Begins(All(RecordsOf(ts))[n], aid)
  {
    if ts != [] {
      var u, t := ts[..|ts| - 1], ts[|ts| - 1];
      assert ts == u + [t];
      EscapeAtSnoc(aid, u, t);
      NoEscapeNoRecord(aid, u);
      RecordsSnoc(u, t);
      var r := RecordsOf(u);
      var a := All(AddToken(r, t));
      forall n | 0 <= n < |a| ensures !Begins(a[n], aid) {
        if n < |r.closed| { assert a[n] == r.closed[n] == All(r)[n]; } else { assert All(r)[|r.closed|] == r.open; }
      }
    }
  }

  /** Record n is the first to begin with the AID. */
  predicate FirstToBegin(all: seq<seq<byte>>, n: nat, aid: byte) {
    n < |all| && Begins(all[n], aid) && forall m :: 0 <= m < n ==> !Begins(all[m], aid)
  }

  /** The bytes are the encoding of every record before the first that begins with the AID. */
  predicate StopsBefore(all: seq<seq<byte>>, n: nat, aid: byte, forward: seq<byte>) {
    FirstToBegin(all, n, aid) && forward == Encode(all[..n])
  }

  lemma EscapeFindsRecord(aid: byte, ts: seq<Token>, k: nat) returns (n: nat)
    requires k == EscapeAt(aid, ts) < |ts| && aid != IAC
    ensures FirstToBegin(All(RecordsOf(ts)), n, aid)
    ensures Framed(RecordsOf(ts[..k])) == Encode(All(RecordsOf(ts))[..n])
  {
    var r, all := RecordsOf(ts[..k]), All(RecordsOf(ts));
    n := |r.closed|;
    assert ts[..k + 1] == ts[..k] + [ts[k]];
    RecordsSnoc(ts[..k], ts[k]);
    RecordsGrow(ts, k + 1);
    RecordsGrow(ts, k);
    assert all[..n] == r.closed;
    assert [aid] <= all[n];
    NoEscapePrefix(aid, ts, k);
    NoEscapeNoRecord(aid, ts[..k]);
    assert forall m :: 0 <= m < n ==> all[m] == All(r)[m];
  }

  /** An escape happens exactly when some record's first data byte is the escape AID, and then the
      bytes forwarded are exactly the encoding of the records before the first such record. With
      AID 0 or 0xFF the processor never escapes. */
  lemma EscapeIsExact(cfg: Config, s: seq<byte>)
    ensures var o := Feed(cfg, FRESH, s);
            var all := All(RecordsOf(Parse(s).tokens));
            && (o.escaped <==> cfg.escapeAID != 0 && cfg.escapeAID != IAC &&
                               exists n :: 0 <= n < |all| && Begins(all[n], cfg.escapeAID))
            && (o.escaped ==> exists n: nat :: StopsBefore(all, n, cfg.escapeAID, o.forward))
            && (!o.escaped ==> o.forward == Framed(RecordsOf(Parse(s).tokens)))
  {
    ProcessorFollowsGrammar(cfg, s);
    var aid, ts := cfg.escapeAID, Parse(s).tokens;
    var k := EscapeAt(aid, ts);
    if k < |ts| {
      assert aid != IAC by { assert WellFormedToken(ts[k]); }
      var n := EscapeFindsRecord(aid, ts, k);
      assert StopsBefore(All(RecordsOf(ts)), n, aid, Feed(cfg, FRESH, s).forward);
    } else {
      assert ts[..k] == ts;
      if aid != 0 && aid != IAC { NoEscapeNoRecord(aid, ts); }
    }
  }

  lemma NoEscapePrefix(aid: byte, ts: seq<Token>, k: nat)
    requires k == EscapeAt(aid, ts)
    ensures EscapeAt(aid, ts[..k]) == k
  {
    assert forall j :: 0 <= j < k ==> ts[..k][..j] == ts[..j];
  }

  /** What is forwarded before an escape is empty or stops at a record boundary. */
  lemma EscapeLeavesWholeRecords(cfg: Config, s: seq<byte>)
    requires Feed(cfg, FRESH, s).escaped
    ensures var f := Feed(cfg, FRESH, s).forward;
            f == [] || (|f| >= 2 && f[|f| - 2..] == [IAC, EOR])
  {
    EscapeIsExact(cfg, s);
    var all := All(RecordsOf(Parse(s).tokens));
    var n: nat :| StopsBefore(all, n, cfg.escapeAID, Feed(cfg, FRESH, s).forward);
    if n > 0 {
      assert all[..n] == all[..n - 1] + [all[n - 1]];
      EncodeSnoc(all[..n - 1], all[n - 1]);
    }
  }

  // ---------------------------------------------------------------- transparency

  function DataTokens(record: seq<byte>): seq<Token> {
    if record == [] then []
    else DataTokens(record[..|record| - 1]) + [DataToken(record[|record| - 1])]
  }

  function RecordTokens(records: seq<seq<byte>>): seq<Token> {
    if records == [] then []
    else RecordTokens(records[..|records| - 1]) + DataTokens(records[|records| - 1]) + [EndRecord]
  }

  predicate Plain(ts: seq<Token>) {
    forall i :: 0 <= i < |ts| ==> WellFormedToken(ts[i]) && (ts[i].Data? || ts[i].Literal? || ts[i].EndRecord?)
  }

  function DataToken(b: byte): Token { if b == IAC then Literal else Data(b) }

  lemma DataTokensSnoc(u: seq<byte>, b: byte)
    ensures DataTokens(u + [b]) == DataTokens(u) + [DataToken(b)]
  {
    assert (u + [b])[..|u|] == u;
  }

  lemma {:induction false} DataTokensCarry(ts: seq<Token>, record: seq<byte>)
    requires RecordsOf(ts).open == []
    ensures RecordsOf(ts + DataTokens(record)) == Records(RecordsOf(ts).closed, record)
  {
    if record == [] {
      assert ts + DataTokens(record) == ts;
    } else {
      var u, b := record[..|record| - 1], record[|record| - 1];
      DataTokensCarry(ts, u);
      DataTokensSnoc(u, b);
      assert record == u + [b];
      assert ts + DataTokens(record) == (ts + DataTokens(u)) + [DataToken(b)];
      RecordsSnoc(ts + DataTokens(u), DataToken(b));
    }
  }

  lemma {:induction false} DataTokensPlain(record: seq<byte>)
    ensures Plain(DataTokens(record))
  {
    if record != [] { DataTokensPlain(record[..|record| - 1]); }
  }

  lemma RecordTokensSnoc(u: seq<seq<byte>>, r: seq<byte>)
    ensures RecordTokens(u + [r]) == RecordTokens(u) + DataTokens(r) + [EndRecord]
  {
    assert (u + [r])[..|u|] == u;
  }

  predicate Carried(records: seq<seq<byte>>) { RecordsOf(RecordTokens(records)) == Records(records, []) }

  lemma RecordCarried(u: seq<seq<byte>>, r: seq<byte>)
    requires Carried(u)
    ensures Carried(u + [r])
  {
    RecordTokensSnoc(u, r);
    DataTokensCarry(RecordTokens(u), r);
    RecordsSnoc(RecordTokens(u) + DataTokens(r), EndRecord);
  }

  lemma {:induction false} RecordTokensCarry(records: seq<seq<byte>>)
    ensures Carried(records)
  {
    if records != [] {
      RecordTokensCarry(records[..|records| - 1]);
      RecordCarried(records[..|records| - 1], records[|records| - 1]);
      InitLast(records);
    }
  }

  lemma {:induction false} RecordTokensPlain(records: seq<seq<byte>>)
    ensures Plain(RecordTokens(records))
  {
    if records != [] {
      RecordTokensPlain(records[..|records| - 1]);
      DataTokensPlain(records[|records| - 1]);
    }
  }

  function TokensOf(r: Records): seq<Token> { RecordTokens(r.closed) + DataTokens(r.open) }

  lemma TokensOfCarry(r: Records)
    ensures RecordsOf(TokensOf(r)) == r && Plain(TokensOf(r))
  {
    RecordTokensCarry(r.closed);
    RecordTokensPlain(r.closed);
    DataTokensPlain(r.open);
    DataTokensCarry(RecordTokens(r.closed), r.open);
  }

  /** Tokens that are all data spell exactly the framing of their records. */
  lemma {:induction false} PlainSpelling(ts: seq<Token>)
    requires Plain(ts)
    ensures SpellTokens(ts) == Framed(RecordsOf(ts))
  {
    if ts != [] {
      var u, t := ts[..|ts| - 1], ts[|ts| - 1];
      assert ts == u + [t];
      PlainSpelling(u);
      FramedSnoc(u, t);
      SpellTokensSnoc(u, t);
    }
  }

  /** A framed stream reads back as its records and nothing else. */
  lemma FramedReadsBack(r: Records)
    ensures Parse(Framed(r)) == Reading(TokensOf(r), Clean)
    ensures RecordsOf(Parse(Framed(r)).tokens) == r
  {
    TokensOfCarry(r);
    PlainSpelling(TokensOf(r));
    var reading := Reading(TokensOf(r), Clean);
    assert Spell(reading) == Framed(r);
    ReadingIsUnique(reading);
  }

  function Decode(s: seq<byte>): seq<seq<byte>> { RecordsOf(Parse(s).tokens).closed }

  lemma DecodeEncode(records: seq<seq<byte>>)
    ensures Decode(Encode(records)) == records
  {
    FramedReadsBack(Records(records, []));
    assert Framed(Records(records, [])) == Encode(records);
  }

  /** Records encoded on the wire, with any complete negotiations, subnegotiations or commands mixed
      in between tokens, come out as exactly their encoding when none of them begins with the
      escape AID, and whatever they begin with where no escape is watched for; the mixed-in tokens are
      answered and nothing else is. */
  lemma Transparent(cfg: Config, ts: seq<Token>, records: seq<seq<byte>>)
    requires forall i :: 0 <= i < |ts| ==> WellFormedToken(ts[i])
    requires RecordsOf(ts) == Records(records, [])
    requires cfg.escapeAID != 0 && cfg.escapeAID != IAC ==>
               forall n :: 0 <= n < |records| ==> !Begins(records[n], cfg.escapeAID)
    ensures var o := Feed(cfg, FRESH, SpellTokens(ts));
            && !o.escaped
            && o.forward == Encode(records)
            && o.reply == Answers(cfg, ts)
            && Decode(o.forward) == records
  {
    var reading := Reading(ts, Clean);
    assert Spell(reading) == SpellTokens(ts);
    ReadingIsUnique(reading);
    EscapeIsExact(cfg, SpellTokens(ts));
    ProcessorFollowsGrammar(cfg, SpellTokens(ts));
    assert ts[..|ts|] == ts;
    assert Framed(Records(records, [])) == Encode(records);
    DecodeEncode(records);
  }

  lemma {:induction false} PlainUnanswered(cfg: Config, ts: seq<Token>)
    requires Plain(ts)
    ensures Answers(cfg, ts) == []
  {
    if ts != [] { PlainUnanswered(cfg, ts[..|ts| - 1]); }
  }

  lemma FramedUnanswered(cfg: Config, r: Records)
    ensures Answers(cfg, TokensOf(r)[..EscapeAt(cfg.escapeAID, TokensOf(r))]) == []
  {
    TokensOfCarry(r);
    PlainUnanswered(cfg, TokensOf(r)[..EscapeAt(cfg.escapeAID, TokensOf(r))]);
  }

  /** The stream that carries records none of which begins with the AID passes unchanged. */
  lemma FramedPasses(cfg: Config, r: Records)
    requires cfg.escapeAID != 0 && cfg.escapeAID != IAC ==>
               forall n :: 0 <= n < |All(r)| ==> !Begins(All(r)[n], cfg.escapeAID)
    ensures var o := Feed(cfg, FRESH, Framed(r));
            o.forward == Framed(r) && o.reply == [] && !o.escaped
  {
    FramedReadsBack(r);
    EscapeIsExact(cfg, Framed(r));
    ProcessorFollowsGrammar(cfg, Framed(r));
    FramedUnanswered(cfg, r);
  }

  /** Whatever a processor forwards, a second one watching for the same AID, or for none, forwards
      unchanged, answers nothing, and sees no escape. */
  lemma ForwardIsFixedPoint(cfg: Config, next: Config, s: seq<byte>)
    requires next.escapeAID == cfg.escapeAID || next.escapeAID == 0 || next.escapeAID == IAC
    ensures var out := Feed(cfg, FRESH, s).forward;
            var o := Feed(next, FRESH, out);
            o.forward == out && o.reply == [] && !o.escaped
  {
    var aid := cfg.escapeAID;
    ProcessorFollowsGrammar(cfg, s);
    var ts := Parse(s).tokens;
    var k := EscapeAt(aid, ts);
    NoEscapePrefix(aid, ts, k);
    if aid != 0 && aid != IAC { NoEscapeNoRecord(aid, ts[..k]); }
    FramedPasses(next, RecordsOf(ts[..k]));
  }

  // ---------------------------------------------------------------- negotiation between two processors

  function AnswerToken(role: Role, t: Token): seq<Token> {
    if !t.Negotiation? then []
    else if t.cmd == DO then [Negotiation(if Agreeable(role, t.opt) then WILL else WONT, t.opt)]
    else if t.cmd == WILL then [Negotiation(if Agreeable(role, t.opt) then DO else DONT, t.opt)]
    else []
  }

  /** The n-th message when each side answers what the other just sent, `near` answering first. */
  function Volley(near: Role, far: Role, first: Token, n: nat): seq<Token> {
    if n == 0 then [first]
    else
      var m := Volley(near, far, first, n - 1);
      if m == [] then [] else AnswerToken(if n % 2 == 1 then near else far, m[0])
  }

  lemma {:induction false} VolleyNeverEnds(near: Role, far: Role, first: Token, n: nat)
    requires first.Negotiation? && (first.cmd == DO || first.cmd == WILL)
    requires Agreeable(near, first.opt) && Agreeable(far, first.opt)
    ensures var m := Volley(near, far, first, n);
            m != [] && m[0].Negotiation? && m[0].opt == first.opt
            && m[0].cmd == (if n % 2 == 0 then first.cmd else if first.cmd == DO then WILL else DO)
  {
    if n > 0 { VolleyNeverEnds(near, far, first, n - 1); }
  }

  lemma VolleyEnds(near: Role, far: Role, first: Token)
    requires first.Negotiation? && (first.cmd == DO || first.cmd == WILL)
    requires !Agreeable(near, first.opt) || !Agreeable(far, first.opt)
    ensures Volley(near, far, first, 3) == []
  {
    assert Volley(near, far, first, 0) == [first];
    var m := Volley(near, far, first, 1);
    assert m == AnswerToken(near, first) && |m| == 1;
    var k := Volley(near, far, first, 2);
    assert k == AnswerToken(far, m[0]);
  }

  /** The processor keeps no option state. Two of them facing each other stop answering a DO or WILL
      if and only if at least one of them refuses the option; refusing is settled in three messages. */
  lemma VolleySettlesIffRefused(near: Role, far: Role, first: Token)
    requires first.Negotiation? && (first.cmd == DO || first.cmd == WILL)
    ensures (exists n :: Volley(near, far, first, n) == []) <==>
            !(Agreeable(near, first.opt) && Agreeable(far, first.opt))
  {
    if Agreeable(near, first.opt) && Agreeable(far, first.opt) {
      forall n: nat ensures Volley(near, far, first, n) != [] { VolleyNeverEnds(near, far, first, n); }
    } else {
      VolleyEnds(near, far, first);
    }
  }

  /** The volley's messages are what `Answer` spells. */
  lemma AnswerTokenSpells(cfg: Config, t: Token)
    requires t.Negotiation?
    ensures SpellTokens(AnswerToken(cfg.role, t)) == Answer(cfg, t)
  {
    var a := AnswerToken(cfg.role, t);
    if a != [] { assert a == [] + [a[0]]; SpellTokensSnoc([], a[0]); }
  }

  // ---------------------------------------------------------------- on the wire

  function Nothing(p: Parser): Outcome { Outcome(p, [], [], false) }

  lemma Feed3(cfg: Config, p: Parser, a: byte, b: byte, c: byte)
    ensures Feed(cfg, p, [a, b, c]) == After(cfg, After(cfg, After(cfg, Nothing(p), a), b), c)
  {
    assert [a] == [] + [a] && [a, b] == [a] + [b] && [a, b, c] == [a, b] + [c];
    FeedSnoc(cfg, p, [], a);
    FeedSnoc(cfg, p, [a], b);
    FeedSnoc(cfg, p, [a, b], c);
  }

  /** Byte for byte, wherever data may stand: DO is answered WILL, and WILL is answered DO, for BINARY,
      SUPPRESS-GO-AHEAD and END-OF-RECORD, and for TERMINAL-TYPE towards the backend alone; any other
      option is refused. WONT and DONT are accepted in silence. Nothing of it is forwarded. */
  lemma NegotiationOnTheWire(cfg: Config, p: Parser, cmd: byte, opt: byte)
    requires p.state.StData? && 251 <= cmd <= 254
    ensures var accepted := opt in {0, 3, 25} || (opt == 24 && cfg.role == Client);
            var o := Feed(cfg, p, [255, cmd, opt]);
            && (cmd == 253 ==> o.reply == [255, if accepted then 251 else 252, opt])
            && (cmd == 251 ==> o.reply == [255, if accepted then 253 else 254, opt])
            && (cmd == 252 || cmd == 254 ==> o.reply == [])
            && o.forward == [] && !o.escaped && o.parser == p.(optCmd := cmd)
  {
    Feed3(cfg, p, 255, cmd, opt);
  }

  /** Tokens that carry no data are all answered. */
  lemma AllAnswered(cfg: Config, ts: seq<Token>)
    requires forall i :: 0 <= i < |ts| ==> WellFormedToken(ts[i]) && !ts[i].Data?
    ensures Feed(cfg, FRESH, SpellTokens(ts)).reply == Answers(cfg, ts)
  {
    var r := Reading(ts, Clean);
    assert Spell(r) == SpellTokens(ts);
    ReadingIsUnique(r);
    ProcessorFollowsGrammar(cfg, Spell(r));
    assert ts[..|ts|] == ts;
  }

  lemma OneToken(cfg: Config, t: Token)
    ensures SpellTokens([t]) == SpellToken(t) && Answers(cfg, [t]) == Answer(cfg, t)
  {
    assert [t] == [] + [t];
    SpellTokensSnoc([], t);
    AnswersSnoc(cfg, [], t);
  }

  lemma TwoTokens(cfg: Config, t: Token, u: Token)
    ensures SpellTokens([t, u]) == SpellToken(t) + SpellToken(u)
    ensures Answers(cfg, [t, u]) == Answer(cfg, t) + Answer(cfg, u)
  {
    assert [t, u] == [t] + [u];
    OneToken(cfg, t);
    SpellTokensSnoc([t], u);
    AnswersSnoc(cfg, [t], u);
  }

  /** A subnegotiation with this payload is answered exactly when it asks for the terminal type and fits
      the buffer of 1024 bytes, and then with IS and the leg's terminal type. */
  lemma SubnegotiationOnTheWire(cfg: Config, payload: seq<byte>)
    ensures Feed(cfg, FRESH, [255, 250] + Stuff(payload) + [255, 240]).reply ==
            if 2 <= |payload| <= 1024 && payload[..2] == [24, 1] then [255, 250, 24, 0] + cfg.termType + [255, 240]
            else []
  {
    var t := Subneg(payload);
    OneToken(cfg, t);
    AllAnswered(cfg, [t]);
    assert SpellToken(t) == [255, 250] + Stuff(payload) + [255, 240];
  }

  lemma TypeRequestSpelled()
    ensures SpellToken(Subneg([24, 1])) == [255, 250, 24, 1, 255, 240]
  {
    Unstuffed([24, 1]);
    assert [255, 250] + [24, 1] == [255, 250, 24, 1];
  }

  /** A backend that offers to ask for the terminal type and then asks gets WILL and the type. */
  lemma BackendLearnsTerminalType(termType: seq<byte>, aid: byte)
    ensures Feed(Config(Client, termType, aid), FRESH, [255, 253, 24] + [255, 250, 24, 1, 255, 240]).reply ==
            [255, 251, 24] + ([255, 250, 24, 0] + termType + [255, 240])
  {
    var cfg := Config(Client, termType, aid);
    var t, u := Negotiation(253, 24), Subneg([24, 1]);
    TwoTokens(cfg, t, u);
    AllAnswered(cfg, [t, u]);
    TypeRequestSpelled();
  }

  lemma {:induction false} Unstuffed(r: seq<byte>)
    requires forall i :: 0 <= i < |r| ==> r[i] != 255
    ensures Stuff(r) == r
  {
    if r != [] { Unstuffed(r[..|r| - 1]); }
  }

  lemma OneRecordFramed(record: seq<byte>)
    requires forall i :: 0 <= i < |record| ==> record[i] != 255
    ensures Framed(Records([record], [])) == record + [255, 239]
  {
    Unstuffed(record);
    EncodeSnoc([], record);
    assert [] + [record] == [record];
  }

  /** After whole records the processor is where a record may begin. */
  lemma AtRecordStart(cfg: Config, r: Records)
    requires r.open == [] && !Feed(cfg, FRESH, Framed(r)).escaped
    ensures var p := Feed(cfg, FRESH, Framed(r)).parser; p.state.StData? && p.atRecStart
  {
    FramedReadsBack(r);
    ProcessorFollowsGrammar(cfg, Framed(r));
  }

  lemma RecordPasses(cfg: Config, record: seq<byte>)
    requires forall i :: 0 <= i < |record| ==> record[i] != 255
    requires record == [] || record[0] != cfg.escapeAID
    ensures var o := Feed(cfg, FRESH, record + [255, 239]);
            && o.forward == record + [255, 239] && o.reply == [] && !o.escaped
            && o.parser.state.StData? && o.parser.atRecStart
  {
    OneRecordFramed(record);
    FramedPasses(cfg, Records([record], []));
    AtRecordStart(cfg, Records([record], []));
  }

  /** PA3 on the wire: right after a record closed by IAC EOR the AID byte escapes, with everything up to
      that EOR forwarded as it came; any other data byte is forwarded too. */
  lemma EscapeOnTheWire(cfg: Config, record: seq<byte>, next: byte)
    requires forall i :: 0 <= i < |record| ==> record[i] != 255
    requires next != 255 && (record == [] || record[0] != cfg.escapeAID)
    ensures var o := Feed(cfg, FRESH, record + [255, 239, next]);
            && o.reply == [] && (o.escaped <==> next == cfg.escapeAID && next != 0)
            && o.forward == record + (if o.escaped then [255, 239] else [255, 239, next])
  {
    RecordPasses(cfg, record);
    assert record + [255, 239, next] == (record + [255, 239]) + [next];
    FeedSnoc(cfg, FRESH, record + [255, 239], next);
  }
}
