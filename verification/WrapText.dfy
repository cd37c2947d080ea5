/** Greedy line breaking of free text (internal/ui3270/snapshotscreen.go, `wrapText`). Strings are
    sequences of runes. */
module WrapText {
  import opened Text

  predicate IsWord(w: string) { w != "" && forall i :: 0 <= i < |w| ==> !IsSpace(w[i]) }

  predicate AllWords(ws: seq<string>) { forall i :: 0 <= i < |ws| ==> IsWord(ws[i]) }

  /** The characters of s that are not white space, in order. */
  function Squeezed(s: string): string {
    if s == "" then "" else (if IsSpace(s[0]) then "" else [s[0]]) + Squeezed(s[1..])
  }

  function Joined(lines: seq<string>): string {
    if lines == [] then "" else Joined(lines[..|lines| - 1]) + lines[|lines| - 1]
  }

  /** The first white-space-free stretch of s ends here. */
  function WordEnd(s: string): (n: nat)
    ensures n <= |s|
    ensures forall i :: 0 <= i < n ==> !IsSpace(s[i])
    ensures n < |s| ==> IsSpace(s[n])
  {
    if s == "" || IsSpace(s[0]) then 0 else 1 + WordEnd(s[1..])
  }

  /** Go's strings.Fields. */
  function Fields(s: string): (ws: seq<string>)
    ensures AllWords(ws)
    decreases |s|
  {
    if s == "" then []
    else if IsSpace(s[0]) then Fields(s[1..])
    else [s[..WordEnd(s)]] + Fields(s[WordEnd(s)..])
  }

  lemma Assoc(a: string, b: string, c: string)
    ensures (a + b) + c == a + (b + c)
  {
  }

  lemma SqueezedCons(c: char, s: string)
    ensures Squeezed([c] + s) == (if IsSpace(c) then "" else [c]) + Squeezed(s)
  {
    assert ([c] + s)[1..] == s;
  }

  lemma {:induction false} SqueezedJoin(a: string, b: string)
    ensures Squeezed(a + b) == Squeezed(a) + Squeezed(b)
  {
    if a == "" {
      assert a + b == b;
    } else {
      var head := if IsSpace(a[0]) then "" else [a[0]];
      SqueezedJoin(a[1..], b);
      assert a + b == [a[0]] + (a[1..] + b);
      SqueezedCons(a[0], a[1..] + b);
      Assoc(head, Squeezed(a[1..]), Squeezed(b));
    }
  }

  lemma SqueezedWord(w: string)
    requires forall i :: 0 <= i < |w| ==> !IsSpace(w[i])
    ensures Squeezed(w) == w
  {
    if w != "" {
      SqueezedWord(w[1..]);
      assert w == [w[0]] + w[1..];
    }
  }

  lemma JoinedSnoc(lines: seq<string>, l: string)
    ensures Joined(lines + [l]) == Joined(lines) + l
  {
    assert (lines + [l])[..|lines|] == lines;
  }

  lemma JoinedCons(l: string, lines: seq<string>)
    ensures Joined([l] + lines) == l + Joined(lines)
  {
    if lines == [] {
      assert [l] + lines == [] + [l];
      JoinedSnoc([], l);
    } else {
      var u := lines[..|lines| - 1];
      JoinedCons(l, u);
      assert [l] + lines == ([l] + u) + [lines[|lines| - 1]];
      JoinedSnoc([l] + u, lines[|lines| - 1]);
    }
  }

  /** `Fields` loses nothing but white space. */
  lemma {:induction false} FieldsKeepText(s: string)
    ensures Joined(Fields(s)) == Squeezed(s)
    decreases |s|
  {
    if s != "" {
      if IsSpace(s[0]) {
        FieldsKeepText(s[1..]);
      } else {
        var n := WordEnd(s);
        FieldsKeepText(s[n..]);
        JoinedCons(s[..n], Fields(s[n..]));
        assert s == s[..n] + s[n..];
        SqueezedJoin(s[..n], s[n..]);
        SqueezedWord(s[..n]);
      }
    }
  }

  // ---------------------------------------------------------------- the greedy specification

  /** Finished lines and the line being filled. */
  datatype Layout = Layout(lines: seq<string>, cur: string)

  function Flushed(l: Layout): seq<string> { if l.cur == "" then l.lines else l.lines + [l.cur] }

  /** Cuts full-width pieces off an over-long word, each on a line of its own. */
  function HardSplit(l: Layout, word: string, width: int): (Layout, string)
    requires width >= 1
    decreases |word|
  {
    if |word| <= width then (l, word)
    else HardSplit(Layout(Flushed(l) + [word[..width]], ""), word[width..], width)
  }

  function AddWord(l: Layout, word: string, width: int): Layout
    requires width >= 1
  {
    var (k, w) := HardSplit(l, word, width);
    if k.cur == "" then Layout(k.lines, w)
    else if |k.cur| + 1 + |w| <= width then Layout(k.lines, k.cur + " " + w)
    else Layout(Flushed(k), w)
  }

  function Filled(ws: seq<string>, width: int): Layout
    requires width >= 1
  {
    if ws == [] then Layout([], "") else AddWord(Filled(ws[..|ws| - 1], width), ws[|ws| - 1], width)
  }

  function EffectiveWidth(width: int): int { if width < 1 then 1 else width }

  function Wrapped(s: string, width: int): seq<string> { Flushed(Filled(Fields(s), EffectiveWidth(width))) }

  method Wrap(s: string, width: int) returns (lines: seq<string>)
    ensures lines == Wrapped(s, width)
  {
    var w := width;
    if w < 1 || s == "" {
      if s == "" { return []; }
      w := 1;
    }
    lines := [];
    var cur := "";
    var words := Fields(s);
    var i := 0;
    while i < |words|
      invariant 0 <= i <= |words|
      invariant Layout(lines, cur) == Filled(words[..i], w)
    {
      var word := words[i];
      i := i + 1;
      assert words[..i][..i - 1] == words[..i - 1];
      ghost var l, whole := Layout(lines, cur), word;
      while |word| > w
        invariant HardSplit(Layout(lines, cur), word, w) == HardSplit(l, whole, w)
        decreases |word|
      {
        if cur != "" { lines, cur := lines + [cur], ""; }
        lines := lines + [word[..w]];
        word := word[w..];
      }
      if cur == "" {
        cur := word;
      } else if |cur| + 1 + |word| <= w {
        cur := cur + " " + word;
      } else {
        lines, cur := lines + [cur], word;
      }
    }
    assert words[..i] == words;
    if cur != "" { lines := lines + [cur]; }
  }

  // ---------------------------------------------------------------- width and content

  predicate Fits(l: Layout, width: int) {
    (forall i :: 0 <= i < |l.lines| ==> 0 < |l.lines[i]| <= width) && |l.cur| <= width
  }

  /** The non-space characters laid out so far. */
  function TextOf(l: Layout): string { Squeezed(Joined(l.lines)) + Squeezed(l.cur) }

  lemma LineEnds(lines: seq<string>, line: string)
    ensures TextOf(Layout(lines + [line], "")) == TextOf(Layout(lines, line))
  {
    JoinedSnoc(lines, line);
    SqueezedJoin(Joined(lines), line);
  }

  lemma FlushKeeps(l: Layout)
    ensures TextOf(Layout(Flushed(l), "")) == TextOf(l)
  {
    if l.cur != "" { LineEnds(l.lines, l.cur); }
  }

  lemma {:induction false} HardSplitFits(l: Layout, word: string, width: int)
    requires width >= 1 && IsWord(word) && Fits(l, width)
    ensures var (k, w) := HardSplit(l, word, width);
            Fits(k, width) && IsWord(w) && |w| <= width
    decreases |word|
  {
    if |word| > width {
      HardSplitFits(Layout(Flushed(l) + [word[..width]], ""), word[width..], width);
    }
  }

  lemma PieceKeeps(l: Layout, word: string, width: int)
    requires 1 <= width < |word| && IsWord(word)
    ensures TextOf(Layout(Flushed(l) + [word[..width]], "")) + word[width..] == TextOf(l) + word
  {
    var piece, rest := word[..width], word[width..];
    FlushKeeps(l);
    LineEnds(Flushed(l), piece);
    SqueezedWord(piece);
    assert word == piece + rest;
    Assoc(TextOf(l), piece, rest);
  }

  lemma {:induction false} HardSplitKeeps(l: Layout, word: string, width: int)
    requires width >= 1 && IsWord(word)
    ensures var (k, w) := HardSplit(l, word, width); TextOf(k) + w == TextOf(l) + word
    decreases |word|
  {
    if |word| > width {
      PieceKeeps(l, word, width);
      HardSplitKeeps(Layout(Flushed(l) + [word[..width]], ""), word[width..], width);
    }
  }

  lemma SqueezedSpace()
    ensures Squeezed(" ") == ""
  {
    SqueezedCons(' ', "");
  }

  lemma SpacedWord(cur: string, w: string)
    requires IsWord(w)
    ensures Squeezed(cur + " " + w) == Squeezed(cur) + w
  {
    SqueezedSpace();
    SqueezedJoin(cur + " ", w);
    SqueezedJoin(cur, " ");
    SqueezedWord(w);
    var a := Squeezed(cur);
    assert a + "" == a;
  }

  lemma AddWordFits(l: Layout, word: string, width: int)
    requires width >= 1 && IsWord(word) && Fits(l, width)
    ensures Fits(AddWord(l, word, width), width)
  {
    HardSplitFits(l, word, width);
  }

  lemma AddWordKeeps(l: Layout, word: string, width: int)
    requires width >= 1 && IsWord(word) && Fits(l, width)
    ensures TextOf(AddWord(l, word, width)) == TextOf(l) + word
  {
    HardSplitFits(l, word, width);
    HardSplitKeeps(l, word, width);
    var (k, w) := HardSplit(l, word, width);
    SqueezedWord(w);
    if k.cur == "" {
      assert TextOf(k) == Squeezed(Joined(k.lines));
    } else if |k.cur| + 1 + |w| <= width {
      SpacedWord(k.cur, w);
      Assoc(Squeezed(Joined(k.lines)), Squeezed(k.cur), w);
    } else {
      FlushKeeps(k);
      assert TextOf(Layout(Flushed(k), "")) == Squeezed(Joined(Flushed(k)));
    }
  }

  lemma {:induction false} FilledKeeps(ws: seq<string>, width: int)
    requires width >= 1 && AllWords(ws)
    ensures Fits(Filled(ws, width), width) && TextOf(Filled(ws, width)) == Joined(ws)
  {
    if ws != [] {
      FilledKeeps(ws[..|ws| - 1], width);
      AddWordFits(Filled(ws[..|ws| - 1], width), ws[|ws| - 1], width);
      AddWordKeeps(Filled(ws[..|ws| - 1], width), ws[|ws| - 1], width);
    }
  }

  lemma FlushedIsRight(l: Layout, width: int)
    requires Fits(l, width)
    ensures forall i :: 0 <= i < |Flushed(l)| ==> 0 < |Flushed(l)[i]| <= width
    ensures Squeezed(Joined(Flushed(l))) == TextOf(l)
  {
    FlushKeeps(l);
    assert TextOf(Layout(Flushed(l), "")) == Squeezed(Joined(Flushed(l)));
  }

  /** Every line is non-empty and at most `width` long, and the lines read on hold exactly the
      non-space characters of the text, in order. */
  lemma WrapFitsAndKeepsText(s: string, width: int)
    ensures forall i :: 0 <= i < |Wrapped(s, width)| ==>
              0 < |Wrapped(s, width)[i]| <= (if width < 1 then 1 else width)
    ensures Squeezed(Joined(Wrapped(s, width))) == Squeezed(s)
  {
    var ws, w := Fields(s), EffectiveWidth(width);
    FilledKeeps(ws, w);
    FlushedIsRight(Filled(ws, w), w);
    FieldsKeepText(s);
  }

  // ---------------------------------------------------------------- minimality

  /** Length of the words set on one line with single spaces. */
  function LineLength(ws: seq<string>): nat {
    if ws == [] then 0 else if |ws| == 1 then |ws[0]| else |ws[0]| + 1 + LineLength(ws[1..])
  }

  function Flatten(groups: seq<seq<string>>): seq<string> {
    if groups == [] then [] else groups[0] + Flatten(groups[1..])
  }

  /** Lines the greedy rule opens for the words to come when the current line is c long (0: none). */
  function Greedy(c: nat, ws: seq<string>, width: int): nat
    decreases |ws|
  {
    if ws == [] then 0
    else if c > 0 && c + 1 + |ws[0]| <= width then Greedy(c + 1 + |ws[0]|, ws[1..], width)
    else 1 + Greedy(|ws[0]|, ws[1..], width)
  }

  lemma {:induction false} LongerIsNoBetter(c: nat, d: nat, ws: seq<string>, width: int)
    requires 0 < c <= d && AllWords(ws)
    ensures Greedy(c, ws, width) <= Greedy(d, ws, width) <= 1 + Greedy(c, ws, width)
    decreases |ws|
  {
    if ws != [] {
      var w, rest := |ws[0]|, ws[1..];
      if d + 1 + w <= width {
        LongerIsNoBetter(c + 1 + w, d + 1 + w, rest, width);
      } else if c + 1 + w <= width {
        LongerIsNoBetter(w, c + 1 + w, rest, width);
      }
    }
  }

  lemma GreedyCons(c: nat, w: string, ws: seq<string>, width: int)
    ensures Greedy(c, [w] + ws, width) ==
            if c > 0 && c + 1 + |w| <= width then Greedy(c + 1 + |w|, ws, width) else 1 + Greedy(|w|, ws, width)
  {
    assert ([w] + ws)[1..] == ws;
  }

  lemma FreshLineCosts(c: nat, w: string, ws: seq<string>, width: int)
    requires IsWord(w) && AllWords(ws) && c > 0
    ensures Greedy(c, [w] + ws, width) <= 1 + Greedy(|w|, ws, width)
  {
    GreedyCons(c, w, ws, width);
    if c + 1 + |w| <= width { LongerIsNoBetter(|w|, c + 1 + |w|, ws, width); }
  }

  lemma LineLengthCons(w: string, ws: seq<string>)
    ensures LineLength([w] + ws) == if ws == [] then |w| else |w| + 1 + LineLength(ws)
  {
    assert ([w] + ws)[1..] == ws;
  }

  lemma FlattenCons(g: seq<string>, groups: seq<seq<string>>)
    ensures Flatten([g] + groups) == g + Flatten(groups)
  {
    assert ([g] + groups)[1..] == groups;
  }

  predicate LinesFit(groups: seq<seq<string>>, width: int) {
    forall i :: 0 <= i < |groups| ==> AllWords(groups[i]) && LineLength(groups[i]) <= width
  }

  /** The words of `cur` complete a line already d long, then comes one line per group. A current line
      no longer than that needs no more lines greedily. */
  lemma {:induction false} GreedyIsLeast(c: nat, d: nat, cur: seq<string>, groups: seq<seq<string>>, width: int)
    requires 0 < c <= d && AllWords(cur) && LinesFit(groups, width) && AllWords(Flatten(groups))
    requires cur != [] ==> d + 1 + LineLength(cur) <= width
    ensures Greedy(c, cur + Flatten(groups), width) <= |groups|
    decreases |groups|, |cur|
  {
    if cur != [] {
      var w, rest := cur[0], cur[1..];
      assert cur == [w] + rest;
      assert cur + Flatten(groups) == [w] + (rest + Flatten(groups));
      LineLengthCons(w, rest);
      GreedyCons(c, w, rest + Flatten(groups), width);
      GreedyIsLeast(c + 1 + |w|, d + 1 + |w|, rest, groups, width);
    } else if groups != [] {
      var g, more := groups[0], groups[1..];
      assert groups == [g] + more;
      FlattenCons(g, more);
      assert AllWords(Flatten(more)) by { SuffixWords(g, Flatten(more)); }
      assert cur + Flatten(groups) == g + Flatten(more);
      if g == [] {
        assert g + Flatten(more) == [] + Flatten(more);
        GreedyIsLeast(c, d, [], more, width);
      } else {
        var w, rest := g[0], g[1..];
        assert g == [w] + rest && IsWord(w);
        var ws := rest + Flatten(more);
        assert AllWords(rest) && AllWords(ws);
        assert g + Flatten(more) == [w] + ws;
        LineLengthCons(w, rest);
        FreshLineCosts(c, w, ws, width);
        GreedyIsLeast(|w|, |w|, rest, more, width);
      }
    }
  }

  lemma SuffixWords(a: seq<string>, b: seq<string>)
    requires AllWords(a + b)
    ensures AllWords(a) && AllWords(b)
  {
    forall i | 0 <= i < |b| ensures IsWord(b[i]) { assert (a + b)[|a| + i] == b[i]; }
    forall i | 0 <= i < |a| ensures IsWord(a[i]) { assert (a + b)[i] == a[i]; }
  }

  /** The layout's line count is the greedy count when every word fits. */
  lemma {:induction false} GreedyAppend(c: nat, ws: seq<string>, w: string, width: int)
    requires AllWords(ws)
    ensures Greedy(c, ws + [w], width) ==
            Greedy(c, ws, width)
            + (if CurLength(c, ws, width) > 0 && CurLength(c, ws, width) + 1 + |w| <= width then 0 else 1)
    ensures CurLength(c, ws + [w], width) ==
            if CurLength(c, ws, width) > 0 && CurLength(c, ws, width) + 1 + |w| <= width
            then CurLength(c, ws, width) + 1 + |w| else |w|
    decreases |ws|
  {
    if ws == [] {
      assert ws + [w] == [w];
    } else {
      assert (ws + [w])[1..] == ws[1..] + [w];
      GreedyAppend(if c > 0 && c + 1 + |ws[0]| <= width then c + 1 + |ws[0]| else |ws[0]|, ws[1..], w, width);
    }
  }

  /** How long the current line is after the words. */
  function CurLength(c: nat, ws: seq<string>, width: int): nat
    decreases |ws|
  {
    if ws == [] then c
    else CurLength(if c > 0 && c + 1 + |ws[0]| <= width then c + 1 + |ws[0]| else |ws[0]|, ws[1..], width)
  }

  lemma {:induction false} FilledCounts(ws: seq<string>, width: int)
    requires width >= 1 && AllWords(ws) && forall i :: 0 <= i < |ws| ==> |ws[i]| <= width
    ensures |Flushed(Filled(ws, width))| == Greedy(0, ws, width)
    ensures |Filled(ws, width).cur| == CurLength(0, ws, width)
  {
    if ws != [] {
      var u, w := ws[..|ws| - 1], ws[|ws| - 1];
      FilledCounts(u, width);
      assert ws == u + [w];
      GreedyAppend(0, u, w, width);
    }
  }

  /** When every word fits the width, no way of breaking the same words into lines that fit, order
      kept, uses fewer lines. */
  lemma WrapIsMinimal(s: string, width: int, groups: seq<seq<string>>)
    requires width >= 1
    requires forall i :: 0 <= i < |Fields(s)| ==> |Fields(s)[i]| <= width
    requires Flatten(groups) == Fields(s)
    requires forall i :: 0 <= i < |groups| ==> LineLength(groups[i]) <= width
    ensures |Wrapped(s, width)| <= |groups|
  {
    FilledCounts(Fields(s), width);
    FlattenWords(groups);
    NothingIsLess(groups, width);
  }

  lemma {:induction false} FlattenWords(groups: seq<seq<string>>)
    requires AllWords(Flatten(groups))
    ensures forall i :: 0 <= i < |groups| ==> AllWords(groups[i])
  {
    if groups != [] {
      SuffixWords(groups[0], Flatten(groups[1..]));
      FlattenWords(groups[1..]);
      forall i | 0 <= i < |groups| ensures AllWords(groups[i]) {
        if i > 0 { assert groups[i] == groups[1..][i - 1]; }
      }
    }
  }

  lemma {:induction false} NothingIsLess(groups: seq<seq<string>>, width: int)
    requires LinesFit(groups, width) && AllWords(Flatten(groups))
    ensures Greedy(0, Flatten(groups), width) <= |groups|
  {
    if groups != [] {
      var g, more := groups[0], groups[1..];
      SuffixWords(g, Flatten(more));
      if g == [] {
        assert Flatten(groups) == Flatten(more);
        NothingIsLess(more, width);
      } else {
        var w, rest := g[0], g[1..];
        assert g == [w] + rest && IsWord(w);
        assert Flatten(groups) == [w] + (rest + Flatten(more));
        LineLengthCons(w, rest);
        GreedyCons(0, w, rest + Flatten(more), width);
        GreedyIsLeast(|w|, |w|, rest, more, width);
      }
    }
  }

  // ---------------------------------------------------------------- words stay apart

  /** The pieces a word is set in: itself if it fits, and otherwise full-width pieces and a rest. */
  function Cut(w: string, width: int): seq<string>
    requires width >= 1
    decreases |w|
  {
    if |w| <= width then [w] else [w[..width]] + Cut(w[width..], width)
  }

  function Pieces(ws: seq<string>, width: int): seq<string>
    requires width >= 1
  {
    if ws == [] then [] else Pieces(ws[..|ws| - 1], width) + Cut(ws[|ws| - 1], width)
  }

  /** Words on one line, one space between neighbours. */
  function Spaced(ws: seq<string>): string {
    if ws == [] then ""
    else if |ws| == 1 then ws[0]
    else Spaced(ws[..|ws| - 1]) + " " + ws[|ws| - 1]
  }

  /** The finished lines are these groups spaced out, the current one is g, and together they are ps. */
  predicate Sets(l: Layout, groups: seq<seq<string>>, g: seq<string>, ps: seq<string>) {
    && |groups| == |l.lines|
    && (forall i :: 0 <= i < |groups| ==> groups[i] != [] && l.lines[i] == Spaced(groups[i]))
    && AllWords(g) && l.cur == Spaced(g) && Flatten(groups) + g == ps
  }

  lemma {:induction false} FlattenSnoc(groups: seq<seq<string>>, g: seq<string>)
    ensures Flatten(groups + [g]) == Flatten(groups) + g
  {
    if groups == [] {
      assert [] + [g] == [g];
    } else {
      FlattenSnoc(groups[1..], g);
      assert groups + [g] == [groups[0]] + (groups[1..] + [g]);
    }
  }

  lemma SpacedSnoc(g: seq<string>, w: string)
    ensures Spaced(g + [w]) == if g == [] then w else Spaced(g) + " " + w
  {
    assert (g + [w])[..|g|] == g;
  }

  lemma SpacedIsEmpty(g: seq<string>)
    requires AllWords(g)
    ensures Spaced(g) == "" <==> g == []
  {
    if g != [] { assert IsWord(g[|g| - 1]); }
  }

  /** The current line is finished. */
  lemma FlushSets(l: Layout, groups: seq<seq<string>>, g: seq<string>, ps: seq<string>) returns (more: seq<seq<string>>)
    requires Sets(l, groups, g, ps)
    ensures Sets(Layout(Flushed(l), ""), more, [], ps)
  {
    SpacedIsEmpty(g);
    if g == [] {
      more := groups;
    } else {
      more := groups + [g];
      FlattenSnoc(groups, g);
    }
    assert Flatten(more) + [] == ps;
  }

  /** A piece is put on a line of its own. */
  lemma PieceSets(l: Layout, groups: seq<seq<string>>, g: seq<string>, ps: seq<string>, piece: string)
    returns (more: seq<seq<string>>)
    requires Sets(l, groups, g, ps)
    ensures Sets(Layout(Flushed(l) + [piece], ""), more, [], ps + [piece])
  {
    var before := FlushSets(l, groups, g, ps);
    more := before + [[piece]];
    FlattenSnoc(before, [piece]);
    assert Flatten(before) == ps;
    assert Flatten(more) + [] == ps + [piece];
  }

  lemma Regroup(a: seq<string>, b: seq<string>, c: seq<string>)
    ensures (a + b) + c == a + (b + c)
  {
  }

  lemma {:induction false} SplitSets(l: Layout, groups: seq<seq<string>>, g: seq<string>, ps: seq<string>,
                                     word: string, width: int)
    returns (more: seq<seq<string>>, h: seq<string>, front: seq<string>)
    requires width >= 1 && IsWord(word) && Sets(l, groups, g, ps)
    ensures var (k, w) := HardSplit(l, word, width);
            Sets(k, more, h, ps + front) && Cut(word, width) == front + [w] && IsWord(w)
    decreases |word|
  {
    if |word| <= width {
      more, h, front := groups, g, [];
      assert ps + [] == ps;
    } else {
      var piece, rest := word[..width], word[width..];
      var next := Layout(Flushed(l) + [piece], "");
      var one := PieceSets(l, groups, g, ps, piece);
      var tail;
      more, h, tail := SplitSets(next, one, [], ps + [piece], rest, width);
      front := [piece] + tail;
      Regroup(ps, [piece], tail);
      Regroup([piece], tail, [HardSplit(next, rest, width).1]);
    }
  }

  /** A word that fits goes on the current line after a space, or on a new one. */
  lemma WordSets(k: Layout, groups: seq<seq<string>>, g: seq<string>, ps: seq<string>, w: string, width: int)
    returns (more: seq<seq<string>>, h: seq<string>)
    requires IsWord(w) && Sets(k, groups, g, ps)
    ensures Sets(if k.cur == "" then Layout(k.lines, w)
                 else if |k.cur| + 1 + |w| <= width then Layout(k.lines, k.cur + " " + w)
                 else Layout(Flushed(k), w), more, h, ps + [w])
  {
    SpacedIsEmpty(g);
    SpacedSnoc(g, w);
    if k.cur == "" || |k.cur| + 1 + |w| <= width {
      more, h := groups, g + [w];
      assert Flatten(groups) + (g + [w]) == (Flatten(groups) + g) + [w];
    } else {
      more := FlushSets(k, groups, g, ps);
      h := [w];
      assert Flatten(more) == ps;
    }
  }

  lemma {:induction false} FilledSets(ws: seq<string>, width: int) returns (groups: seq<seq<string>>, g: seq<string>)
    requires width >= 1 && AllWords(ws)
    ensures Sets(Filled(ws, width), groups, g, Pieces(ws, width))
  {
    if ws == [] {
      groups, g := [], [];
    } else {
      var u, word := ws[..|ws| - 1], ws[|ws| - 1];
      groups, g := FilledSets(u, width);
      var ps, front := Pieces(u, width), [];
      groups, g, front := SplitSets(Filled(u, width), groups, g, ps, word, width);
      var (k, w) := HardSplit(Filled(u, width), word, width);
      groups, g := WordSets(k, groups, g, ps + front, w, width);
      assert ps + front + [w] == ps + (front + [w]);
    }
  }

  /** Every line is a group of words with single spaces between them; the groups in order are the words of the
      text, those that do not fit the width cut into pieces. So no two words run together and none is
      broken that fits. */
  lemma WordsStayApart(s: string, width: int) returns (groups: seq<seq<string>>)
    ensures |groups| == |Wrapped(s, width)|
    ensures forall i :: 0 <= i < |groups| ==> groups[i] != [] && Wrapped(s, width)[i] == Spaced(groups[i])
    ensures Flatten(groups) == Pieces(Fields(s), if width < 1 then 1 else width)
  {
    var w := EffectiveWidth(width);
    var g;
    groups, g := FilledSets(Fields(s), w);
    groups := FlushSets(Filled(Fields(s), w), groups, g, Pieces(Fields(s), w));
    assert Flatten(groups) + [] == Flatten(groups);
  }

  /** A cut word's pieces fit and put together again are the word. */
  lemma {:induction false} CutKeepsWord(w: string, width: int)
    requires width >= 1
    ensures Joined(Cut(w, width)) == w && forall i :: 0 <= i < |Cut(w, width)| ==> |Cut(w, width)[i]| <= width
    decreases |w|
  {
    if |w| <= width {
      assert [w] == [] + [w];
      JoinedSnoc([], w);
    } else {
      CutKeepsWord(w[width..], width);
      JoinedCons(w[..width], Cut(w[width..], width));
    }
  }
}
