/** The line editor behind the admin document screens (internal/ui3270/editor.go). Lines are sequences of runes. */
module Editor {
  import opened Layout
  import opened Prelude

  type Line = string

  const TEXT_MAX := 76

  // ---------------------------------------------------------------- prefix commands

  predicate IsCommand(c: char) { c == 'I' || c == 'D' || c == 'R' }

  predicate AllCommands(cmds: map<int, char>) { forall i :: i in cmds ==> IsCommand(cmds[i]) }

  /** What one line becomes. */
  function Rewritten(line: Line, cmds: map<int, char>, i: int): seq<Line> {
    if i !in cmds then [line]
    else if cmds[i] == 'I' then [line, ""]
    else if cmds[i] == 'D' then []
    else [line, line]
  }

  /** Every line from index `from` on rewritten at once, by its own command and nothing else. */
  function RewriteFrom(lines: seq<Line>, cmds: map<int, char>, from: nat): seq<Line>
    requires from <= |lines|
    decreases |lines| - from
  {
    if from == |lines| then [] else Rewritten(lines[from], cmds, from) + RewriteFrom(lines, cmds, from + 1)
  }

  function OrBlank(lines: seq<Line>): (r: seq<Line>)
    ensures r != []
  {
    if lines == [] then [""] else lines
  }

  /** All lines rewritten simultaneously; an invalid command anywhere changes nothing. */
  function Rewrite(lines: seq<Line>, cmds: map<int, char>): seq<Line> {
    if AllCommands(cmds) then OrBlank(RewriteFrom(lines, cmds, 0)) else lines
  }

  lemma Assoc(a: seq<Line>, b: seq<Line>, c: seq<Line>)
    ensures (a + b) + c == a + (b + c)
  {
  }

  lemma {:induction false} UntouchedStretch(lines: seq<Line>, cmds: map<int, char>, lo: nat, hi: nat)
    requires lo <= hi <= |lines|
    requires forall i :: lo <= i < hi ==> i !in cmds
    ensures RewriteFrom(lines, cmds, lo) == lines[lo..hi] + RewriteFrom(lines, cmds, hi)
    decreases hi - lo
  {
    if lo < hi {
      UntouchedStretch(lines, cmds, lo + 1, hi);
      assert lines[lo..hi] == [lines[lo]] + lines[lo + 1..hi];
      Assoc([lines[lo]], lines[lo + 1..hi], RewriteFrom(lines, cmds, hi));
    } else {
      assert lines[lo..hi] == [];
    }
  }

  predicate Descending(s: seq<int>) { forall i, j :: 0 <= i < j < |s| ==> s[i] > s[j] }

  /** The in-range command indices, highest first. */
  method SortedIndices(cmds: map<int, char>, n: nat) returns (idxs: seq<int>)
    ensures Descending(idxs)
    ensures forall m :: 0 <= m < |idxs| ==> idxs[m] in cmds && 0 <= idxs[m] < n
    ensures forall i :: i in cmds && 0 <= i < n ==> i in idxs
  {
    idxs := [];
    for k := 0 to n
      invariant Descending(idxs)
      invariant forall m :: 0 <= m < |idxs| ==> idxs[m] in cmds && 0 <= idxs[m] < k
      invariant forall i :: i in cmds && 0 <= i < k ==> i in idxs
    {
      if k in cmds { idxs := [k] + idxs; }
    }
  }

  /** One command carried out in place. */
  function Applied(r: seq<Line>, i: int, c: char): seq<Line>
    requires 0 <= i < |r|
  {
    if c == 'I' then r[..i + 1] + [""] + r[i + 1..]
    else if c == 'D' then r[..i] + r[i + 1..]
    else r[..i + 1] + [r[i]] + r[i + 1..]
  }

  lemma AppliedInContext(above: seq<Line>, line: Line, below: seq<Line>, cmds: map<int, char>, i: int)
    requires |above| == i && i in cmds && IsCommand(cmds[i])
    ensures Applied(above + [line] + below, i, cmds[i]) == above + Rewritten(line, cmds, i) + below
  {
    var r := above + [line] + below;
    assert r[..i] == above && r[..i + 1] == above + [line] && r[i + 1..] == below;
  }

  lemma StretchAbove(lines: seq<Line>, cmds: map<int, char>, i: int, hi: int)
    requires 0 <= i < hi <= |lines|
    requires forall j :: i < j < hi ==> j !in cmds
    ensures lines[..hi] + RewriteFrom(lines, cmds, hi) == lines[..i] + [lines[i]] + RewriteFrom(lines, cmds, i + 1)
  {
    UntouchedStretch(lines, cmds, i + 1, hi);
    assert lines[..hi] == (lines[..i] + [lines[i]]) + lines[i + 1..hi];
    Assoc(lines[..i] + [lines[i]], lines[i + 1..hi], RewriteFrom(lines, cmds, hi));
  }

  /** With everything from hi on already rewritten and no command between i and hi, carrying out line
      i's command rewrites everything from i on. */
  lemma AppliedRewrites(lines: seq<Line>, cmds: map<int, char>, i: int, hi: int)
    requires 0 <= i < hi <= |lines| && i in cmds && IsCommand(cmds[i])
    requires forall j :: i < j < hi ==> j !in cmds
    ensures Applied(lines[..hi] + RewriteFrom(lines, cmds, hi), i, cmds[i]) == lines[..i] + RewriteFrom(lines, cmds, i)
  {
    StretchAbove(lines, cmds, i, hi);
    AppliedInContext(lines[..i], lines[i], RewriteFrom(lines, cmds, i + 1), cmds, i);
    Assoc(lines[..i], Rewritten(lines[i], cmds, i), RewriteFrom(lines, cmds, i + 1));
  }

  /** The commands are applied one by one in place, last line first, and the result is the
      simultaneous rewrite. */
  method ApplyPrefix(lines: seq<Line>, cmds: map<int, char>) returns (r: seq<Line>, ok: bool)
    ensures ok == AllCommands(cmds)
    ensures r == Rewrite(lines, cmds)
  {
    ok := Valid(cmds);
    if !ok { return lines, false; }
    var idxs := SortedIndices(cmds, |lines|);
    r := lines;
    var k := 0;
    ghost var hi := |lines|;
    while k < |idxs|
      invariant 0 <= k <= |idxs| && 0 <= hi <= |lines|
      invariant forall m :: k <= m < |idxs| ==> idxs[m] < hi
      invariant forall j :: 0 <= j < hi && j in cmds ==> j in idxs[k..]
      invariant r == lines[..hi] + RewriteFrom(lines, cmds, hi)
    {
      var i := idxs[k];
      AppliedRewrites(lines, cmds, i, hi);
      match cmds[i] {
        case 'I' => r := r[..i + 1] + [""] + r[i + 1..];
        case 'D' => r := r[..i] + r[i + 1..];
        case _ => r := r[..i + 1] + [r[i]] + r[i + 1..];
      }
      hi := i;
      k := k + 1;
    }
    UntouchedStretch(lines, cmds, 0, hi);
    if |r| == 0 { r := [""]; }
  }

  /** The veto: looks at every command, in range or not. */
  method Valid(cmds: map<int, char>) returns (ok: bool)
    ensures ok == AllCommands(cmds)
  {
    var todo := cmds.Keys;
    while exists i :: i in todo
      invariant todo <= cmds.Keys
      invariant forall i :: i in cmds && i !in todo ==> IsCommand(cmds[i])
      decreases todo
    {
      var i :| i in todo;
      if cmds[i] != 'I' && cmds[i] != 'D' && cmds[i] != 'R' { return false; }
      todo := todo - {i};
    }
    return true;
  }

  // ---------------------------------------------------------------- text input

  predicate Editable(line: Line) { |line| <= TEXT_MAX }

  /** Typed text replaces exactly the editable lines it was typed over, at the indices shown. */
  function Typed(lines: seq<Line>, text: map<int, Line>, start: int): seq<Line> {
    seq(|lines|, i requires 0 <= i < |lines| =>
      if i - start in text && Editable(lines[i]) then text[i - start] else lines[i])
  }

  method TypeText(lines: seq<Line>, text: map<int, Line>, start: int) returns (r: seq<Line>)
    ensures r == Typed(lines, text, start)
  {
    r := lines;
    var todo := text.Keys;
    while exists vi :: vi in todo
      invariant todo <= text.Keys && |r| == |lines|
      invariant forall i :: 0 <= i < |lines| ==>
                  r[i] == if i - start in text && i - start !in todo && Editable(lines[i])
                          then text[i - start] else lines[i]
      decreases todo
    {
      var vi :| vi in todo;
      todo := todo - {vi};
      var gi := start + vi;
      if 0 <= gi < |r| && |r[gi]| <= TEXT_MAX { r := r[gi := text[vi]]; }
    }
  }

  // ---------------------------------------------------------------- the editor loop

  /** One transmission: typed text and prefix commands by visible row, and the key pressed. */
  datatype Action = Action(text: map<int, Line>, prefix: map<int, char>, pf: int)

  /** How the caller's Save answers. */
  datatype SaveResult = Saved | Complaint | Fatal

  datatype Answer = Gone | Sent(act: Action, save: SaveResult)

  /** One turn as it happened: the page asked for and shown, what came back, what the lines became, and
      whether they were handed to Save. */
  datatype Turn = Turn(before: seq<Line>, asked: int, shown: Page, act: Action, after: seq<Line>, offered: bool)

  /** The document's index of a row shown. */
  function LineAt(start: int, row: int): int { start + row }

  function Shifted(prefix: map<int, char>, start: int): map<int, char> {
    map v | v in prefix :: LineAt(start, v) := prefix[v]
  }

  /** The document after one transmission: typing first, then the simultaneous rewrite. */
  function Edited(lines: seq<Line>, act: Action, start: int): seq<Line> {
    if act.prefix == map[] then Typed(lines, act.text, start)
    else Rewrite(Typed(lines, act.text, start), Shifted(act.prefix, start))
  }

  predicate Faithful(t: Turn, rows: int) {
    && t.before != []
    && t.after != []
    && t.shown == PageBounds(t.asked, |t.before|, rows)
    && t.after == Edited(t.before, t.act, t.shown.start)
    && (t.offered <==> t.act.pf == 3 && AllCommands(Shifted(t.act.prefix, t.shown.start)))
  }

  datatype End = Disconnected | Committed | Failed | Cancelled

  lemma EditedNonEmpty(lines: seq<Line>, act: Action, start: int)
    requires lines != []
    ensures Edited(lines, act, start) != []
  {
    assert |Typed(lines, act.text, start)| == |lines|;
  }

  /** The page asked for after a turn. */
  function NextPage(t: Turn): int {
    if t.act.pf == 7 then t.shown.page - 1
    else if t.act.pf == 8 && t.shown.end < |t.after| then t.shown.page + 1
    else t.shown.page
  }

  /** The document before turn i, and the page asked for. */
  function Before(seed: seq<Line>, turns: seq<Turn>, i: nat): seq<Line>
    requires i <= |turns|
  {
    if i == 0 then OrBlank(seed) else turns[i - 1].after
  }

  function Asked(turns: seq<Turn>, i: nat): int
    requires i <= |turns|
  {
    if i == 0 then 0 else NextPage(turns[i - 1])
  }

  /** Turn i is faithful, carries out the script's i-th answer, and goes on where the one before left
      the document and the page. */
  predicate TurnAt(seed: seq<Line>, rows: int, script: seq<Answer>, turns: seq<Turn>, i: nat)
    requires i < |turns| <= |script|
  {
    && Faithful(turns[i], rows)
    && script[i].Sent? && turns[i].act == script[i].act
    && turns[i].before == Before(seed, turns, i) && turns[i].asked == Asked(turns, i)
  }

  predicate Chronicle(seed: seq<Line>, rows: int, script: seq<Answer>, turns: seq<Turn>) {
    |turns| <= |script| && forall i :: 0 <= i < |turns| ==> TurnAt(seed, rows, script, turns, i)
  }

  lemma TurnSnoc(seed: seq<Line>, rows: int, script: seq<Answer>, turns: seq<Turn>, t: Turn)
    requires Chronicle(seed, rows, script, turns) && Faithful(t, rows)
    requires |turns| < |script| && script[|turns|].Sent? && script[|turns|].act == t.act
    requires t.before == Before(seed, turns, |turns|) && t.asked == Asked(turns, |turns|)
    ensures Chronicle(seed, rows, script, turns + [t])
  {
    var all := turns + [t];
    forall i: nat | i < |all| ensures TurnAt(seed, rows, script, all, i) {
      if i > 0 { assert all[i - 1] == turns[i - 1]; }
      if i < |turns| { assert TurnAt(seed, rows, script, turns, i) && all[i] == turns[i]; }
    }
  }

  /** How a turn ends the editor, if it does: PF12 cancels, and Save's answer decides an offer. */
  function Verdict(t: Turn, save: SaveResult): Option<End> {
    if t.act.pf == 12 then Some(Cancelled)
    else if t.offered && save == Saved then Some(Committed)
    else if t.offered && save == Fatal then Some(Failed)
    else None
  }

  /** No turn but the last ends the editor; if the last does not either, the connection died. */
  predicate Explains(end: End, turns: seq<Turn>, script: seq<Answer>)
    requires |turns| <= |script| && forall i :: 0 <= i < |turns| ==> script[i].Sent?
  {
    var n := |turns|;
    && (forall i :: 0 <= i < n - 1 ==> Verdict(turns[i], script[i].save).None?)
    && if n > 0 && Verdict(turns[n - 1], script[n - 1].save).Some?
       then Verdict(turns[n - 1], script[n - 1].save) == Some(end)
       else end == Disconnected && (n == |script| || script[n].Gone?)
  }

  /** Steps 1 and 2 of a transmission. */
  method Transmit(lines: seq<Line>, act: Action, start: int) returns (after: seq<Line>, ok: bool)
    ensures after == Edited(lines, act, start)
    ensures ok == AllCommands(Shifted(act.prefix, start))
  {
    after := TypeText(lines, act.text, start);
    ok := true;
    if |act.prefix| > 0 {
      after, ok := ApplyPrefix(after, Shifted(act.prefix, start));
    }
  }

  /** One turn of the loop: the page shown, and the transmission carried out. */
  method TakeTurn(lines: seq<Line>, page: int, rows: int, act: Action) returns (t: Turn)
    requires lines != []
    ensures Faithful(t, rows) && t.before == lines && t.asked == page && t.act == act
    ensures t.after != [] && (t.offered ==> act.pf == 3)
  {
    var shown := PageBounds(page, |lines|, rows);
    var after, ok := Transmit(lines, act, shown.start);
    EditedNonEmpty(lines, act, shown.start);
    t := Turn(lines, page, shown, act, after, act.pf == 3 && ok);
  }

  /** The script carries out the turns so far, and none of them ended the editor. */
  predicate StillOpen(turns: seq<Turn>, script: seq<Answer>) {
    && |turns| <= |script|
    && forall i :: 0 <= i < |turns| ==> script[i].Sent? && Verdict(turns[i], script[i].save).None?
  }

  /** One more turn: the editor goes on, or this turn explains its end. */
  lemma TurnDecides(turns: seq<Turn>, script: seq<Answer>, t: Turn)
    requires StillOpen(turns, script) && |turns| < |script| && script[|turns|].Sent?
    ensures var v, all := Verdict(t, script[|turns|].save), turns + [t];
            && (forall i :: 0 <= i < |all| ==> script[i].Sent?)
            && if v.None? then StillOpen(all, script) else Explains(v.value, all, script)
  {
    var all := turns + [t];
    forall i | 0 <= i < |turns| ensures Verdict(all[i], script[i].save).None? {
      assert all[i] == turns[i];
    }
  }

  /** Runs until Save succeeds, PF12, a fatal save or a dead connection; the script's end is a dead
      connection. Turn i is the script's i-th answer and edits the document exactly as one simultaneous
      rewrite of what was shown; turns and pages join up; Save is offered the full current lines on an
      error-free PF3 only, and its answer, PF12 or a dead connection decides the end. */
  method RunEditor(seed: seq<Line>, rows: int, script: seq<Answer>) returns (end: End, turns: seq<Turn>)
    ensures Chronicle(seed, rows, script, turns)
    ensures (forall i :: 0 <= i < |turns| ==> script[i].Sent?) && Explains(end, turns, script)
  {
    var lines := seed;
    if |lines| == 0 { lines := [""]; }
    var page := 0;
    turns := [];
    while true
      invariant Chronicle(seed, rows, script, turns) && StillOpen(turns, script)
      invariant lines != [] && lines == Before(seed, turns, |turns|) && page == Asked(turns, |turns|)
      decreases |script| - |turns|
    {
      if |turns| == |script| || script[|turns|].Gone? { return Disconnected, turns; }
      var act, save := script[|turns|].act, script[|turns|].save;
      var t := TakeTurn(lines, page, rows, act);
      TurnSnoc(seed, rows, script, turns, t);
      TurnDecides(turns, script, t);
      turns, lines, page := turns + [t], t.after, t.shown.page;
      if act.pf == 3 {
        if !t.offered { continue; }
        if save == Fatal { return Failed, turns; }
        if save == Complaint { continue; }
        return Committed, turns;
      } else if act.pf == 12 {
        return Cancelled, turns;
      } else if act.pf == 7 {
        page := page - 1;
      } else if act.pf == 8 {
        if t.shown.end < |lines| { page := page + 1; }
      }
    }
  }

  // ---------------------------------------------------------------- what a run amounts to

  /** One action on a document, with a page asked for: the document after it, and the next page. */
  function Worked(d: (seq<Line>, int), act: Action, rows: int): (seq<Line>, int) {
    var shown := PageBounds(d.1, |d.0|, rows);
    var after := Edited(d.0, act, shown.start);
    (after, NextPage(Turn(d.0, d.1, shown, act, after, false)))
  }

  /** The script's first n actions carried out in order. */
  function Folded(seed: seq<Line>, rows: int, script: seq<Answer>, n: nat): (seq<Line>, int)
    requires n <= |script| && forall i :: 0 <= i < n ==> script[i].Sent?
  {
    if n == 0 then (OrBlank(seed), 0) else Worked(Folded(seed, rows, script, n - 1), script[n - 1].act, rows)
  }

  /** After any number of turns the document is the fold of the script's actions so far, each one typed
      text and then a simultaneous rewrite, on the page its keys lead to. */
  lemma {:induction false} DocumentIsFold(seed: seq<Line>, rows: int, script: seq<Answer>, turns: seq<Turn>, n: nat)
    requires Chronicle(seed, rows, script, turns) && n <= |turns|
    ensures forall i :: 0 <= i < n ==> script[i].Sent?
    ensures Folded(seed, rows, script, n) == (Before(seed, turns, n), Asked(turns, n))
    decreases n
  {
    if n > 0 {
      DocumentIsFold(seed, rows, script, turns, n - 1);
      var t := turns[n - 1];
      assert TurnAt(seed, rows, script, turns, n - 1);
      FoldStep(seed, rows, script, n, t);
    }
  }

  lemma FoldStep(seed: seq<Line>, rows: int, script: seq<Answer>, n: nat, t: Turn)
    requires 0 < n <= |script| && forall i :: 0 <= i < n ==> script[i].Sent?
    requires Folded(seed, rows, script, n - 1) == (t.before, t.asked)
    requires Faithful(t, rows) && t.act == script[n - 1].act
    ensures Folded(seed, rows, script, n) == (t.after, NextPage(t))
  {
  }

  lemma SameTurns(seed: seq<Line>, rows: int, script: seq<Answer>, a: seq<Turn>, b: seq<Turn>, n: nat)
    requires Chronicle(seed, rows, script, a) && Chronicle(seed, rows, script, b) && n < |a| && n < |b|
    ensures a[n] == b[n]
  {
    DocumentIsFold(seed, rows, script, a, n);
    DocumentIsFold(seed, rows, script, b, n);
    assert TurnAt(seed, rows, script, a, n) && TurnAt(seed, rows, script, b, n);
    OneFaithfulTurn(a[n], b[n], rows);
  }

  lemma OneFaithfulTurn(a: Turn, b: Turn, rows: int)
    requires Faithful(a, rows) && Faithful(b, rows) && a.before == b.before && a.asked == b.asked && a.act == b.act
    ensures a == b
  {
  }

  /** Nothing is left open: a script has one run. */
  lemma RunIsDetermined(seed: seq<Line>, rows: int, script: seq<Answer>,
                        a: seq<Turn>, endA: End, b: seq<Turn>, endB: End)
    requires Chronicle(seed, rows, script, a) && Chronicle(seed, rows, script, b)
    requires (forall i :: 0 <= i < |a| ==> script[i].Sent?) && Explains(endA, a, script)
    requires (forall i :: 0 <= i < |b| ==> script[i].Sent?) && Explains(endB, b, script)
    ensures a == b && endA == endB
  {
    var n := if |a| < |b| then |a| else |b|;
    forall i: nat | i < n ensures a[i] == b[i] { SameTurns(seed, rows, script, a, b, i); }
    assert |a| == |b|;
  }

  // ---------------------------------------------------------------- keys, line by line

  function Piece(line: Line, c: char): seq<Line> {
    if c == 'I' then [line, ""] else if c == 'D' then [] else [line, line]
  }

  lemma OneLine(lines: seq<Line>, cmds: map<int, char>, i: int)
    requires 0 <= i < |lines| && i in cmds
    ensures RewriteFrom(lines, cmds, i) == Piece(lines[i], cmds[i]) + RewriteFrom(lines, cmds, i + 1)
  {
  }

  lemma NoneFrom(lines: seq<Line>, cmds: map<int, char>, from: nat)
    requires from <= |lines| && forall j :: from <= j < |lines| ==> j !in cmds
    ensures RewriteFrom(lines, cmds, from) == lines[from..]
  {
    UntouchedStretch(lines, cmds, from, |lines|);
    assert lines[from..|lines|] == lines[from..];
  }

  /** A command alone rewrites its own line in place. */
  lemma InPlace(lines: seq<Line>, cmds: map<int, char>, i: int)
    requires 0 <= i < |lines| && i in cmds && forall j :: j in cmds ==> j == i
    ensures RewriteFrom(lines, cmds, 0) == lines[..i] + (Piece(lines[i], cmds[i]) + lines[i + 1..])
  {
    UntouchedStretch(lines, cmds, 0, i);
    OneLine(lines, cmds, i);
    NoneFrom(lines, cmds, i + 1);
    assert lines[0..i] == lines[..i];
  }

  lemma Assembled(lines: seq<Line>, i: int)
    requires 0 <= i < |lines|
    ensures lines[..i] + ([lines[i], ""] + lines[i + 1..]) == lines[..i + 1] + [""] + lines[i + 1..]
    ensures lines[..i] + ([lines[i], lines[i]] + lines[i + 1..]) == lines[..i + 1] + [lines[i]] + lines[i + 1..]
    ensures lines[..i] + ([] + lines[i + 1..]) == lines[..i] + lines[i + 1..]
  {
  }

  /** One command: I opens a blank line below its line, R repeats the line, D removes it, but never the last
      one; a command for no line of the document leaves it alone, and so does an unknown one. */
  lemma OneCommand(lines: seq<Line>, i: int, c: char)
    requires lines != []
    ensures var r := Rewrite(lines, map[i := c]);
            if !(0 <= i < |lines|) || (c != 'I' && c != 'D' && c != 'R') then r == lines
            else if c == 'I' then r == lines[..i + 1] + [""] + lines[i + 1..]
            else if c == 'R' then r == lines[..i + 1] + [lines[i]] + lines[i + 1..]
            else r == if |lines| == 1 then [""] else lines[..i] + lines[i + 1..]
  {
    OneKnown(i, c);
    if 0 <= i < |lines| {
      InPlace(lines, map[i := c], i);
      Assembled(lines, i);
    } else {
      NoneFrom(lines, map[i := c], 0);
    }
  }

  lemma OneKnown(i: int, c: char)
    ensures AllCommands(map[i := c]) <==> c == 'I' || c == 'D' || c == 'R'
  {
    assert i in map[i := c];
  }

  /** A command typed beside a row shown is carried out on the document's line there. */
  lemma CommandHitsItsLine(lines: seq<Line>, row: int, c: char, pf: int, start: int)
    ensures Edited(lines, Action(map[], map[row := c], pf), start) == Rewrite(lines, map[start + row := c])
  {
    assert Typed(lines, map[], start) == lines;
    var prefix := map[row := c];
    ShiftedHas(prefix, start, row);
    forall i | i in Shifted(prefix, start) ensures i == start + row {
      var v := ShiftedFrom(prefix, start, i);
    }
    assert Shifted(prefix, start) == map[start + row := c];
    assert row in prefix;
  }

  /** Without commands a transmission changes exactly the lines typed over that are at most 76 wide. */
  lemma TypingAlone(lines: seq<Line>, act: Action, start: int, i: nat)
    requires act.prefix == map[] && i < |lines|
    ensures |Edited(lines, act, start)| == |lines|
    ensures Edited(lines, act, start)[i] ==
            if i - start in act.text && |lines[i]| <= 76 then act.text[i - start] else lines[i]
  {
  }

  /** PF8 shows what comes after the page, if the document goes on there, PF7 what comes before it, and any
      other key the same place again; each turn works on what the turn before left. */
  lemma KeysPage(seed: seq<Line>, rows: int, script: seq<Answer>, turns: seq<Turn>, i: nat)
    requires Chronicle(seed, rows, script, turns) && i + 1 < |turns|
    ensures turns[i + 1].before == turns[i].after
    ensures var t, next, size := turns[i], turns[i + 1].shown, if rows < 24 then 14 else rows - 10;
            && (t.act.pf == 8 && t.shown.end == t.shown.start + size < |t.after| ==> next.start == t.shown.end)
            && (t.act.pf == 7 && 0 < t.shown.start <= |t.after| ==> next.end == t.shown.start)
            && (t.act.pf != 7 && t.act.pf != 8 && t.shown.start < |t.after| ==> next.start == t.shown.start)
  {
    assert TurnAt(seed, rows, script, turns, i) && TurnAt(seed, rows, script, turns, i + 1);
    var t := turns[i];
    PageIsShown(t.asked, |t.before|, rows);
    PageTurns(t.shown, rows, |t.after|);
  }

  /** The transmission asks for a save and every command in it is one of the three. */
  predicate Saves(act: Action) {
    act.pf == 3 && forall v :: v in act.prefix ==> act.prefix[v] == 'I' || act.prefix[v] == 'D' || act.prefix[v] == 'R'
  }

  /** A command is found at its own line of the document. */
  lemma ShiftedHas(prefix: map<int, char>, start: int, v: int)
    requires v in prefix
    ensures LineAt(start, v) in Shifted(prefix, start) && Shifted(prefix, start)[LineAt(start, v)] == prefix[v]
  {
  }

  lemma ShiftedFrom(prefix: map<int, char>, start: int, i: int) returns (v: int)
    requires i in Shifted(prefix, start)
    ensures v in prefix && i == start + v && Shifted(prefix, start)[i] == prefix[v]
  {
    v :| v in prefix && LineAt(start, v) == i && Shifted(prefix, start)[i] == prefix[v];
  }

  lemma ShiftedCommands(prefix: map<int, char>, start: int)
    ensures AllCommands(Shifted(prefix, start)) <==>
              forall v :: v in prefix ==> prefix[v] == 'I' || prefix[v] == 'D' || prefix[v] == 'R'
  {
    var cmds := Shifted(prefix, start);
    if AllCommands(cmds) {
      forall v | v in prefix ensures prefix[v] == 'I' || prefix[v] == 'D' || prefix[v] == 'R' {
        ShiftedHas(prefix, start, v);
        assert IsCommand(cmds[LineAt(start, v)]);
      }
    } else {
      var i :| i in cmds && !IsCommand(cmds[i]);
      var v := ShiftedFrom(prefix, start, i);
    }
  }

  lemma OfferedIffSaves(t: Turn, rows: int)
    requires Faithful(t, rows)
    ensures t.offered <==> Saves(t.act)
  {
    ShiftedCommands(t.act.prefix, t.shown.start);
  }

  /** The editor ends on its last transmission: PF12 cancels, and PF3 without a bad command commits or fails
      as Save says; any other end is a dead connection, and nothing before ended it. */
  lemma LastKeyEnds(seed: seq<Line>, rows: int, script: seq<Answer>, turns: seq<Turn>, end: End)
    requires Chronicle(seed, rows, script, turns)
    requires (forall i :: 0 <= i < |turns| ==> script[i].Sent?) && Explains(end, turns, script)
    ensures var n := |turns|;
            && (end == Cancelled <==> n > 0 && turns[n - 1].act.pf == 12)
            && (end == Committed <==> n > 0 && Saves(turns[n - 1].act) && script[n - 1].save == Saved)
            && (end == Failed <==> n > 0 && Saves(turns[n - 1].act) && script[n - 1].save == Fatal)
    ensures forall i :: 0 <= i < |turns| - 1 ==>
              turns[i].act.pf != 12 && (Saves(turns[i].act) ==> script[i].save == Complaint)
  {
    forall i: nat | i < |turns| ensures turns[i].offered <==> Saves(turns[i].act) {
      assert TurnAt(seed, rows, script, turns, i);
      OfferedIffSaves(turns[i], rows);
    }
    forall i: nat | i < |turns| - 1
      ensures turns[i].act.pf != 12 && (Saves(turns[i].act) ==> script[i].save == Complaint)
    {
      assert Verdict(turns[i], script[i].save).None?;
    }
  }
}
