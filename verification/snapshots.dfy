/**
 * Price snapshots: the insertion-ordered dict that scraping builds
 * (name -> {"sell": ..., "buy": ...}) and the form it takes once it has been
 * written to and read back from the JSON state file.
 */
module Snapshots {
  import opened Wrappers

  /** The displayed sell and buy strings of one item (never parsed as numbers). */
  datatype Quote = Quote(sell: string, buy: string)

  datatype Entry = Entry(name: string, quote: Quote)

  /** A Python dict from item name to quote, in insertion order. */
  type Snapshot = seq<Entry>

  function Names(s: Snapshot): (ns: seq<string>)
    ensures |ns| == |s|
    ensures forall i :: 0 <= i < |s| ==> ns[i] == s[i].name
  {
    if s == [] then [] else [s[0].name] + Names(s[1..])
  }

  /** Dict keys are unique. */
  predicate UniqueNames(s: Snapshot) {
    forall i, j :: 0 <= i < j < |s| ==> s[i].name != s[j].name
  }

  /** `prices.get(name)` on a snapshot. */
  function Get(s: Snapshot, name: string): (r: Option<Quote>)
    ensures r.Some? <==> name in Names(s)
  {
    if s == [] then None
    else if s[0].name == name then Some(s[0].quote)
    else Get(s[1..], name)
  }

  /**
   * `prices[name] = quote`: an existing key keeps its position and takes the
   * new value; a new key is appended.
   */
  function Put(s: Snapshot, name: string, quote: Quote): (r: Snapshot)
    ensures name in Names(s) ==> Names(r) == Names(s)
    ensures name !in Names(s) ==> Names(r) == Names(s) + [name]
  {
    if s == [] then [Entry(name, quote)]
    else if s[0].name == name then
      NamesCons(Entry(name, quote), s[1..]);
      NamesCons(s[0], s[1..]);
      [Entry(name, quote)] + s[1..]
    else
      var rest := Put(s[1..], name, quote);
      NamesCons(s[0], rest);
      NamesCons(s[0], s[1..]);
      [s[0]] + rest
  }

  /** After `prices[name] = quote` the name maps to the quote and every other name keeps its value. */
  lemma {:induction false} PutGet(s: Snapshot, name: string, quote: Quote, other: string)
    ensures Get(Put(s, name, quote), other) == if other == name then Some(quote) else Get(s, other)
  {
    if s != [] && s[0].name != name {
      PutGet(s[1..], name, quote, other);
    }
  }

  lemma NamesCons(e: Entry, s: Snapshot)
    ensures Names([e] + s) == [e.name] + Names(s)
  {
    assert ([e] + s)[1..] == s;
  }

  /** Assigning into a dict never creates a second entry for a key. */
  lemma PutKeepsUnique(s: Snapshot, name: string, quote: Quote)
    requires UniqueNames(s)
    ensures UniqueNames(Put(s, name, quote))
  {
    var r := Put(s, name, quote);
    forall i, j | 0 <= i < j < |r| ensures r[i].name != r[j].name {
      assert Names(r)[i] == r[i].name && Names(r)[j] == r[j].name;
      if j < |s| {
        assert Names(s)[i] == s[i].name && Names(s)[j] == s[j].name;
      } else {
        assert Names(s)[i] == s[i].name;
      }
    }
  }

  /** With unique keys, looking up the name of any entry finds that entry's quote. */
  lemma {:induction false} GetEntry(s: Snapshot, i: nat)
    requires UniqueNames(s)
    requires i < |s|
    ensures Get(s, s[i].name) == Some(s[i].quote)
  {
    if i > 0 {
      assert s[0].name != s[i].name;
      assert s[1..][i - 1] == s[i];
      GetEntry(s[1..], i - 1);
    }
  }

  /** A dict value as read back from JSON: an object with string fields. */
  type Record = map<string, string>

  /** The old "prices" object of the state file. */
  type Prices = map<string, Record>

  /** The JSON object that `{"sell": sell, "buy": buy}` is saved as. */
  function AsRecord(q: Quote): (r: Record)
    ensures r.Keys == {"sell", "buy"}
    ensures r["sell"] == q.sell && r["buy"] == q.buy
  {
    map["sell" := q.sell, "buy" := q.buy]
  }

  /** `old.get(name)` on the loaded prices. */
  function Lookup(prices: Prices, name: string): Option<Record> {
    if name in prices then Some(prices[name]) else None
  }

  /**
   * The prices a snapshot becomes once saved and loaded again: the same keys,
   * each with its quote as a JSON object (the order is irrelevant to lookups).
   */
  function Stored(s: Snapshot): (r: Prices)
    ensures forall name ::
      Lookup(r, name) == (if Get(s, name).Some? then Some(AsRecord(Get(s, name).value)) else None)
  {
    if s == [] then map[]
    else Stored(s[1..])[s[0].name := AsRecord(s[0].quote)]
  }
}
