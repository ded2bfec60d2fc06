/**
 * Turning the fetched page into a price snapshot and the message header.
 * The HTTP request and the HTML parser are outside the model: a page is
 * either a failed fetch or the list of its tables, each a list of `tr` rows,
 * each row the stripped texts of its `td` cells.
 */
module Scrape {
  import opened Wrappers
  import opened Snapshots
  import Text

  type Row = seq<string>
  type Table = seq<Row>

  datatype Page = FetchFailed | Fetched(tables: seq<Table>)

  /** The successful result of scraping: the prices and the header lines. */
  datatype Scraped = Scraped(prices: Snapshot, header: string)

  const Title: string := "<b>📊 王鼎貴金屬價格更新</b>"
  const Rule: string := "━━━━━━━━━━━━━━━━"

  /** The header: title, the Taipei time stamp (given, as "%Y-%m-%d %H:%M") and a rule. */
  function Header(stamp: string): (h: string)
    ensures Title <= h
  {
    Text.Join([Title, "⏰ " + stamp, Rule], "\n")
  }

  /** A row becomes a price entry: three cells and a name with neither 出 nor 入 in it. */
  predicate Kept(row: Row) {
    |row| == 3 && row[0] != "" && '出' !in row[0] && '入' !in row[0]
  }

  /** A row is kept exactly when it has three cells and a non-empty name in which neither "出" nor "入" occurs as a substring. */
  lemma KeptIff(row: Row)
    ensures Kept(row) <==>
            |row| == 3 && row[0] != "" && !Text.Contains(row[0], "出") && !Text.Contains(row[0], "入")
  {
    if |row| == 3 {
      Text.ContainsChar(row[0], '出');
      Text.ContainsChar(row[0], '入');
    }
  }

  function QuoteOf(row: Row): Quote
    requires |row| == 3
  {
    Quote(row[1], row[2])
  }

  /** The rows of all tables, table after table. */
  function AllRows(tables: seq<Table>): seq<Row> {
    if tables == [] then []
    else AllRows(tables[..|tables| - 1]) + tables[|tables| - 1]
  }

  /** A row is among all rows exactly when it is a row of some table. */
  lemma {:induction false} AllRowsMembers(tables: seq<Table>)
    ensures forall t, k :: 0 <= t < |tables| && 0 <= k < |tables[t]| ==> tables[t][k] in AllRows(tables)
    ensures forall row :: row in AllRows(tables) ==> exists t :: 0 <= t < |tables| && row in tables[t]
  {
    if tables != [] {
      var prefix := tables[..|tables| - 1];
      AllRowsMembers(prefix);
      forall t, k | 0 <= t < |tables| && 0 <= k < |tables[t]|
        ensures tables[t][k] in AllRows(tables)
      {
        if t < |tables| - 1 {
          assert tables[t] == prefix[t];
        }
      }
      forall row | row in AllRows(tables)
        ensures exists t :: 0 <= t < |tables| && row in tables[t]
      {
        if row in AllRows(prefix) {
          var t :| 0 <= t < |prefix| && row in prefix[t];
          assert prefix[t] == tables[t];
        } else {
          assert row in tables[|tables| - 1];
        }
      }
    }
  }

  /** The loop's step: one more row either goes through `Put` or changes nothing. */
  lemma CollectStep(done: seq<Row>, rows: seq<Row>, k: nat)
    requires k < |rows|
    ensures Collect(done + rows[..k + 1]) ==
            if Kept(rows[k]) then Put(Collect(done + rows[..k]), rows[k][0], QuoteOf(rows[k]))
            else Collect(done + rows[..k])
  {
    assert (done + rows[..k + 1])[..|done + rows[..k]|] == done + rows[..k];
  }

  /** The dict the row loop builds, row by row. */
  function Collect(rows: seq<Row>): (s: Snapshot)
    ensures UniqueNames(s)
  {
    if rows == [] then []
    else
      var prefix := Collect(rows[..|rows| - 1]);
      var row := rows[|rows| - 1];
      if Kept(row) then
        PutKeepsUnique(prefix, row[0], QuoteOf(row));
        Put(prefix, row[0], QuoteOf(row))
      else prefix
  }

  /** The names of the kept rows, in row order, duplicates included. */
  function KeptNames(rows: seq<Row>): seq<string> {
    if rows == [] then []
    else
      var row := rows[|rows| - 1];
      KeptNames(rows[..|rows| - 1]) + if Kept(row) then [row[0]] else []
  }

  /** Each element at its first occurrence. */
  function Dedup(xs: seq<string>): (r: seq<string>)
    ensures forall x :: x in r <==> x in xs
    ensures forall i, j :: 0 <= i < j < |r| ==> r[i] != r[j]
  {
    if xs == [] then []
    else
      var prefix := Dedup(xs[..|xs| - 1]);
      var x := xs[|xs| - 1];
      assert forall y :: y in xs <==> y in xs[..|xs| - 1] || y == x by {
        assert xs == xs[..|xs| - 1] + [x];
      }
      if x in prefix then prefix else prefix + [x]
  }

  /** The quote of the last kept row with the given name. */
  function LastQuote(rows: seq<Row>, name: string): Option<Quote> {
    if rows == [] then None
    else
      var row := rows[|rows| - 1];
      if Kept(row) && row[0] == name then Some(QuoteOf(row))
      else LastQuote(rows[..|rows| - 1], name)
  }

  /** The snapshot's keys are the kept names, ordered by first occurrence. */
  lemma {:induction false} CollectNames(rows: seq<Row>)
    ensures Names(Collect(rows)) == Dedup(KeptNames(rows))
  {
    if rows != [] {
      var prefix := rows[..|rows| - 1];
      CollectNames(prefix);
      var xs := KeptNames(rows);
      if Kept(rows[|rows| - 1]) {
        assert xs[..|xs| - 1] == KeptNames(prefix);
      } else {
        assert xs == KeptNames(prefix);
      }
    }
  }

  /** A later row with the same name overwrites the quote of an earlier one. */
  lemma {:induction false} CollectGet(rows: seq<Row>, name: string)
    ensures Get(Collect(rows), name) == LastQuote(rows, name)
  {
    if rows != [] {
      var prefix := rows[..|rows| - 1];
      CollectGet(prefix, name);
      var row := rows[|rows| - 1];
      if Kept(row) {
        PutGet(Collect(prefix), row[0], QuoteOf(row), name);
      }
    }
  }

  /** A name is in the snapshot exactly when some kept row carries it. */
  lemma {:induction false} CollectHas(rows: seq<Row>, name: string)
    ensures name in Names(Collect(rows)) <==>
            exists i :: 0 <= i < |rows| && Kept(rows[i]) && rows[i][0] == name
  {
    if rows != [] {
      var prefix := rows[..|rows| - 1];
      CollectHas(prefix, name);
      if exists i :: 0 <= i < |rows| && Kept(rows[i]) && rows[i][0] == name {
        var i :| 0 <= i < |rows| && Kept(rows[i]) && rows[i][0] == name;
        if i < |rows| - 1 {
          assert prefix[i] == rows[i];
        }
      }
      if name in Names(Collect(rows)) && !(Kept(rows[|rows| - 1]) && rows[|rows| - 1][0] == name) {
        var i :| 0 <= i < |prefix| && Kept(prefix[i]) && prefix[i][0] == name;
        assert rows[i] == prefix[i];
      }
    }
  }

  /** What `scrape_gold_price` returns for a page. */
  function ScrapeResult(page: Page, stamp: string): (r: Option<Scraped>)
    ensures page.FetchFailed? ==> r.None?
    ensures r.Some? ==> r.value.prices != [] && UniqueNames(r.value.prices) && r.value.header == Header(stamp)
  {
    if page.FetchFailed? || page.tables == [] then None
    else
      var prices := Collect(AllRows(page.tables));
      if prices == [] then None else Some(Scraped(prices, Header(stamp)))
  }

  /**
   * Scraping yields nothing exactly when the fetch failed or no row of any
   * table is kept; otherwise every kept name is a key whose quote is that of
   * its last row, and the header is built from the stamp.
   */
  lemma ScrapeResultSpec(page: Page, stamp: string)
    ensures ScrapeResult(page, stamp).None? <==>
            page.FetchFailed? ||
            forall t, k :: 0 <= t < |page.tables| && 0 <= k < |page.tables[t]| ==> !Kept(page.tables[t][k])
    ensures ScrapeResult(page, stamp).Some? ==>
            var r := ScrapeResult(page, stamp).value;
            && UniqueNames(r.prices)
            && r.header == Header(stamp)
            && (forall name :: Get(r.prices, name) == LastQuote(AllRows(page.tables), name))
  {
    if page.Fetched? {
      var rows := AllRows(page.tables);
      var prices := Collect(rows);
      AllRowsMembers(page.tables);
      if prices == [] {
        forall t, k | 0 <= t < |page.tables| && 0 <= k < |page.tables[t]|
          ensures !Kept(page.tables[t][k])
        {
          var row := page.tables[t][k];
          assert row in rows;
          var i :| 0 <= i < |rows| && rows[i] == row;
          if Kept(row) {
            CollectHas(rows, row[0]);
            assert false;
          }
        }
      } else {
        assert Names(prices)[0] in Names(prices);
        CollectHas(rows, Names(prices)[0]);
        var i :| 0 <= i < |rows| && Kept(rows[i]) && rows[i][0] == Names(prices)[0];
        assert rows[i] in rows;
        var t :| 0 <= t < |page.tables| && rows[i] in page.tables[t];
        var k :| 0 <= k < |page.tables[t]| && page.tables[t][k] == rows[i];
      }
      forall name ensures Get(prices, name) == LastQuote(rows, name) {
        CollectGet(rows, name);
      }
    }
  }

  /** `scrape_gold_price` after the fetch: the row-filter loop over every table. */
  method ScrapeGoldPrice(page: Page, stamp: string) returns (r: Option<Scraped>)
    ensures r == ScrapeResult(page, stamp)
  {
    if page.FetchFailed? {
      return None;
    }
    var tables := page.tables;
    if |tables| == 0 {
      return None;
    }
    var prices: Snapshot := [];
    var lines := [Title, "⏰ " + stamp, Rule];
    for t := 0 to |tables|
      invariant prices == Collect(AllRows(tables[..t]))
    {
      var rows := tables[t];
      ghost var done := AllRows(tables[..t]);
      assert done + rows[..0] == done;
      for k := 0 to |rows|
        invariant prices == Collect(done + rows[..k])
      {
        var tds := rows[k];
        CollectStep(done, rows, k);
        if |tds| == 3 {
          var name, sell, buy := tds[0], tds[1], tds[2];
          if name == "" || '出' in name || '入' in name {
            continue;
          }
          prices := Put(prices, name, Quote(sell, buy));
        }
      }
      assert rows[..|rows|] == rows;
      assert tables[..t + 1][..t] == tables[..t];
    }
    assert tables[..|tables|] == tables;
    if prices == [] {
      return None;
    }
    return Some(Scraped(prices, Text.Join(lines, "\n")));
  }
}
