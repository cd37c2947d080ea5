/** Which rows of a list or document a page shows (internal/ui3270/layout.go). */
module Layout {
  function NormRows(rows: int): int { if rows < 24 then 24 else rows }

  function PageSize(rows: int): int { NormRows(rows) - 10 }

  datatype Page = Page(page: int, start: int, end: int)

  function PageBounds(page: int, total: nat, rows: int): (p: Page)
    ensures 0 <= p.page && 0 <= p.start <= p.end <= total
    ensures total > 0 ==> p.start < p.end
  {
    if total == 0 then Page(0, 0, 0)
    else
      var size := PageSize(rows);
      var maxPage := (total - 1) / size;
      var capped := if page > maxPage then maxPage else page;
      var shown := if capped < 0 then 0 else capped;
      PageFits(shown, total, size);
      var start := shown * size;
      Page(shown, start, if start + size < total then start + size else total)
  }

  lemma PageFits(shown: int, total: nat, size: int)
    requires total > 0 && size > 0 && 0 <= shown <= (total - 1) / size
    ensures 0 <= shown * size < total
  {
    var q := (total - 1) / size;
    assert shown * size <= q * size by { assert q * size == shown * size + (q - shown) * size; }
  }

  /** Whatever page is asked for, the one shown starts at a multiple of the page size, which is ten less than
      the terminal's rows and counts at least 24 of them; it is never empty when there is something to
      show, stays inside the data, and is the page asked for if that page exists. */
  lemma PageIsShown(page: int, total: nat, rows: int)
    requires total > 0
    ensures var p, size := PageBounds(page, total, rows), if rows < 24 then 14 else rows - 10;
            && p.start == p.page * size && p.start < p.end <= total
            && p.end - p.start <= size
            && (p.end - p.start == size || p.end == total)
            && (0 <= page && page * size < total ==> p.page == page)
            && (page < 0 ==> p.page == 0)
            && (page >= 0 && page * size >= total ==> p.end == total)
  {
    PageBeyond(page, total, PageSize(rows));
  }

  /** A page that exists is shown from its own start. */
  lemma ShownAt(page: int, total: nat, rows: int, start: int)
    requires 0 <= page && start == page * PageSize(rows) && start < total
    ensures var p := PageBounds(page, total, rows);
            p.start == start && p.end == if start + PageSize(rows) < total then start + PageSize(rows) else total
  {
    PageIsShown(page, total, rows);
  }

  lemma Multiples(page: int, size: int)
    requires size > 0
    ensures (page + 1) * size == page * size + size && (page - 1) * size == page * size - size
    ensures page * size > 0 ==> page >= 1
    ensures page >= 1 ==> page * size >= size
  {
    if page <= 0 { assert page * size <= 0; } else { assert page * size == size + (page - 1) * size; }
  }

  /** The page after a full one begins where that one ends, if the data goes on there. */
  lemma PageAfter(p: Page, rows: int, later: nat)
    requires 0 <= p.page && p.start == p.page * PageSize(rows) && p.end == p.start + PageSize(rows) < later
    ensures PageBounds(p.page + 1, later, rows).start == p.end
  {
    Multiples(p.page, PageSize(rows));
    ShownAt(p.page + 1, later, rows, p.end);
  }

  /** The page before ends where this one begins. */
  lemma PageBefore(p: Page, rows: int, later: nat)
    requires 0 <= p.page && p.start == p.page * PageSize(rows) && 0 < p.start <= later
    ensures PageBounds(p.page - 1, later, rows).end == p.start
  {
    Multiples(p.page, PageSize(rows));
    ShownAt(p.page - 1, later, rows, p.start - PageSize(rows));
  }

  /** Asked for again, the page begins where it did. */
  lemma PageAgain(p: Page, rows: int, later: nat)
    requires 0 <= p.page && p.start == p.page * PageSize(rows) && p.start < later
    ensures PageBounds(p.page, later, rows).start == p.start
  {
    ShownAt(p.page, later, rows, p.start);
  }

  /** What turning a page shows when the data is of another length by then. */
  lemma PageTurns(p: Page, rows: int, later: nat)
    requires 0 <= p.page && p.start == p.page * PageSize(rows)
    ensures p.end == p.start + PageSize(rows) < later ==> PageBounds(p.page + 1, later, rows).start == p.end
    ensures 0 < p.start <= later ==> PageBounds(p.page - 1, later, rows).end == p.start
    ensures p.start < later ==> PageBounds(p.page, later, rows).start == p.start
  {
    if p.end == p.start + PageSize(rows) < later { PageAfter(p, rows, later); }
    if 0 < p.start <= later { PageBefore(p, rows, later); }
    if p.start < later { PageAgain(p, rows, later); }
  }

  /** The pages before and after a key that asks for the page `next`, over data of the same length. */
  lemma KeyTurns(asked: int, next: int, total: nat, rows: int, pf: int)
    requires total > 0
    requires var p := PageBounds(asked, total, rows);
             next == if pf == 7 then p.page - 1 else if pf == 8 && p.end < total then p.page + 1 else p.page
    ensures var p, q := PageBounds(asked, total, rows), PageBounds(next, total, rows);
            && 0 <= p.start < p.end <= total && 0 <= q.start < q.end <= total
            && (pf == 8 && p.end < total ==> q.start == p.end)
            && (pf == 7 && p.start > 0 ==> q.end == p.start)
            && (pf != 7 && pf != 8 ==> q.start == p.start)
  {
    PageIsShown(asked, total, rows);
    PageTurns(PageBounds(asked, total, rows), rows, total);
  }

  lemma PageBeyond(page: int, total: nat, size: int)
    requires total > 0 && size > 0
    ensures page > (total - 1) / size ==> page * size >= total
  {
    var q := (total - 1) / size;
    assert total - 1 < q * size + size;
    if page > q {
      var k := page - q - 1;
      assert k * size >= 0;
      assert page * size == q * size + size + k * size by { assert page == q + 1 + k; }
    }
  }
}
