/**
 * `build_changed_message`: compare the fresh snapshot with the saved prices
 * and format one block per entry whose value differs.
 */
module Diff {
  import opened Wrappers
  import opened Snapshots
  import Text

  /** Python's KeyError, raised when a saved record lacks a field the template reads. */
  datatype KeyError = KeyError(key: string)

  /** `prev != cur`: the saved value is missing or is not exactly `{"sell": .., "buy": ..}`. */
  predicate Changed(last: Prices, e: Entry) {
    Lookup(last, e.name) != Some(AsRecord(e.quote))
  }

  /**
   * An entry is unchanged exactly when its name is saved with a record that
   * has the fields "sell" and "buy", nothing else, and the same two strings.
   */
  lemma UnchangedIff(last: Prices, e: Entry)
    ensures !Changed(last, e) <==>
            e.name in last && last[e.name].Keys == {"sell", "buy"} &&
            last[e.name]["sell"] == e.quote.sell && last[e.name]["buy"] == e.quote.buy
  {
    var q := e.quote;
    if e.name in last && last[e.name].Keys == {"sell", "buy"} &&
       last[e.name]["sell"] == q.sell && last[e.name]["buy"] == q.buy {
      assert forall k :: k in last[e.name] ==> last[e.name][k] == AsRecord(q)[k];
      assert last[e.name] == AsRecord(q);
    }
  }

  /** `if prev:`: only a missing record or an empty object is falsy. */
  predicate Truthy(prev: Option<Record>) {
    prev.Some? && prev.value != map[]
  }

  /** A missing or empty saved value never equals a quote, so such an entry always counts as changed. */
  lemma FalsyIsChanged(last: Prices, e: Entry)
    ensures !Truthy(Lookup(last, e.name)) ==> Changed(last, e)
  {
  }

  /** A quote as the script saves it is never falsy. */
  lemma SavedIsTruthy(q: Quote)
    ensures Truthy(Some(AsRecord(q)))
  {
  }

  /** The first line of every block: the bullet and the bold item name. */
  function Heading(name: string): string {
    "• <b>" + name + "</b>\n"
  }

  /** The block for an entry seen for the first time. */
  function NewBlock(name: string, cur: Quote): string {
    Heading(name) +
    "  出: <code>" + cur.sell + "</code>\n" +
    "  入: <code>" + cur.buy + "</code>"
  }

  /** The block for an entry whose previous value is shown next to the current one. */
  function TransitionBlock(name: string, prevSell: string, prevBuy: string, cur: Quote): string {
    Heading(name) +
    "  出: <code>" + prevSell + "</code> ➜ <code>" + cur.sell + "</code>\n" +
    "  入: <code>" + prevBuy + "</code> ➜ <code>" + cur.buy + "</code>"
  }

  /** The block a changed entry gets, or the KeyError its f-string raises. */
  function BlockFor(last: Prices, e: Entry): (r: Result<string, KeyError>)
    ensures r.Err? <==> Truthy(Lookup(last, e.name)) &&
                        ("sell" !in Lookup(last, e.name).value || "buy" !in Lookup(last, e.name).value)
    ensures r.Err? ==> r.error == KeyError(if "sell" !in Lookup(last, e.name).value then "sell" else "buy")
  {
    var prev := Lookup(last, e.name);
    if !Truthy(prev) then Ok(NewBlock(e.name, e.quote))
    else if "sell" !in prev.value then Err(KeyError("sell"))
    else if "buy" !in prev.value then Err(KeyError("buy"))
    else Ok(TransitionBlock(e.name, prev.value["sell"], prev.value["buy"], e.quote))
  }

  /** Every block begins with the bullet and the bold name of its own entry. */
  lemma BlockHeading(last: Prices, e: Entry)
    ensures BlockFor(last, e).Ok? ==> Heading(e.name) <= BlockFor(last, e).value
  {
  }

  /** The blocks the loop appends over a prefix of the new snapshot, or the first error. */
  function ChangedBlocks(last: Prices, current: Snapshot): Result<seq<string>, KeyError> {
    if current == [] then Ok([])
    else
      var prefix := ChangedBlocks(last, current[..|current| - 1]);
      var e := current[|current| - 1];
      if prefix.Err? || !Changed(last, e) then prefix
      else match BlockFor(last, e)
        case Err(k) => Err(k)
        case Ok(b) => Ok(prefix.value + [b])
  }

  /** A KeyError ends the loop: the error of a prefix is the error of the whole. */
  lemma {:induction false} ErrorStops(last: Prices, current: Snapshot, i: nat)
    requires i <= |current|
    requires ChangedBlocks(last, current[..i]).Err?
    ensures ChangedBlocks(last, current) == ChangedBlocks(last, current[..i])
  {
    if i < |current| {
      var prefix := current[..|current| - 1];
      assert prefix[..i] == current[..i];
      ErrorStops(last, prefix, i);
    } else {
      assert current[..i] == current;
    }
  }

  /** What `build_changed_message` returns (or raises). */
  function ChangedMessage(last: Prices, current: Snapshot, header: string): (r: Result<Option<string>, KeyError>)
    ensures r.Ok? && r.value.Some? ==> header + "\n\n" <= r.value.value
  {
    match ChangedBlocks(last, current)
    case Err(k) => Err(k)
    case Ok(blocks) =>
      if blocks == [] then Ok(None)
      else
        var m := Text.Join([header, ""] + blocks, "\n");
        assert ([header, ""] + blocks)[1..] == [""] + blocks;
        assert Text.Join([""] + blocks, "\n") == "" + "\n" + Text.Join(blocks, "\n") by {
          assert ([""] + blocks)[1..] == blocks;
        }
        assert m == header + "\n" + ("" + "\n" + Text.Join(blocks, "\n"));
        Ok(Some(m))
  }

  /** `build_changed_message(old, new, header)`. */
  method BuildChangedMessage(last: Prices, current: Snapshot, header: string)
    returns (r: Result<Option<string>, KeyError>)
    ensures r == ChangedMessage(last, current, header)
  {
    var changedLines := [header, ""];
    var changed := false;
    for i := 0 to |current|
      invariant ChangedBlocks(last, current[..i]).Ok?
      invariant changedLines == [header, ""] + ChangedBlocks(last, current[..i]).value
      invariant changed <==> ChangedBlocks(last, current[..i]).value != []
    {
      assert current[..i + 1][..i] == current[..i];
      var name, cur := current[i].name, current[i].quote;
      var prev := Lookup(last, name);
      if prev != Some(AsRecord(cur)) {
        changed := true;
        if prev.Some? && prev.value != map[] {
          if "sell" !in prev.value {
            ErrorStops(last, current, i + 1);
            return Err(KeyError("sell"));
          }
          if "buy" !in prev.value {
            ErrorStops(last, current, i + 1);
            return Err(KeyError("buy"));
          }
          changedLines := changedLines + [TransitionBlock(name, prev.value["sell"], prev.value["buy"], cur)];
        } else {
          changedLines := changedLines + [NewBlock(name, cur)];
        }
      }
    }
    assert current[..|current|] == current;
    if !changed {
      return Ok(None);
    }
    return Ok(Some(Text.Join(changedLines, "\n")));
  }

  /** The entries of the new snapshot that differ from the saved prices, in order. */
  function ChangedEntries(last: Prices, current: Snapshot): seq<Entry> {
    if current == [] then []
    else
      var e := current[|current| - 1];
      ChangedEntries(last, current[..|current| - 1]) + if Changed(last, e) then [e] else []
  }

  /** An entry is selected exactly when it is in the new snapshot and differs. */
  lemma {:induction false} ChangedEntriesMembers(last: Prices, current: Snapshot)
    ensures forall e :: e in ChangedEntries(last, current) <==> e in current && Changed(last, e)
  {
    if current != [] {
      var prefix := current[..|current| - 1];
      ChangedEntriesMembers(last, prefix);
      assert current == prefix + [current[|current| - 1]];
    }
  }

  /** Every changed entry of the snapshot has a block (none raises). */
  predicate AllBlocksOk(last: Prices, current: Snapshot) {
    forall i :: 0 <= i < |current| && Changed(last, current[i]) ==> BlockFor(last, current[i]).Ok?
  }

  /** The loop fails exactly when some changed entry's block raises. */
  lemma {:induction false} BlocksOkIff(last: Prices, current: Snapshot)
    ensures ChangedBlocks(last, current).Ok? <==> AllBlocksOk(last, current)
  {
    if current != [] {
      var prefix := current[..|current| - 1];
      var e := current[|current| - 1];
      BlocksOkIff(last, prefix);
      assert forall i :: 0 <= i < |prefix| ==> prefix[i] == current[i];
      if AllBlocksOk(last, current) {
        assert AllBlocksOk(last, prefix);
      } else if AllBlocksOk(last, prefix) {
        assert Changed(last, e) && BlockFor(last, e).Err?;
      }
    }
  }

  /** Prices the script saved itself never make the diff raise: every saved record has both fields. */
  lemma SavedPricesNeverRaise(s: Snapshot, current: Snapshot, header: string)
    ensures ChangedMessage(Stored(s), current, header).Ok?
  {
    forall i | 0 <= i < |current| && Changed(Stored(s), current[i])
      ensures BlockFor(Stored(s), current[i]).Ok?
    {
      assert Lookup(Stored(s), current[i].name) == None || Lookup(Stored(s), current[i].name) == Some(AsRecord(Get(s, current[i].name).value));
    }
    BlocksOkIff(Stored(s), current);
  }

  /**
   * The loop formats exactly the changed entries, in the new snapshot's order,
   * one block each.
   */
  lemma {:induction false} BlocksOfChangedEntries(last: Prices, current: Snapshot)
    requires ChangedBlocks(last, current).Ok?
    ensures var bs, ce := ChangedBlocks(last, current).value, ChangedEntries(last, current);
            |bs| == |ce| && forall k :: 0 <= k < |ce| ==> BlockFor(last, ce[k]) == Ok(bs[k])
  {
    if current != [] {
      var prefix := current[..|current| - 1];
      var e := current[|current| - 1];
      assert ChangedBlocks(last, prefix).Ok?;
      BlocksOfChangedEntries(last, prefix);
      var pbs, pce := ChangedBlocks(last, prefix).value, ChangedEntries(last, prefix);
      if Changed(last, e) {
        assert ChangedBlocks(last, current).value == pbs + [BlockFor(last, e).value];
        assert ChangedEntries(last, current) == pce + [e];
      } else {
        assert ChangedBlocks(last, current).value == pbs;
        assert ChangedEntries(last, current) == pce;
      }
    }
  }

  /** No message is built exactly when no entry of the new snapshot differs. */
  lemma NoMessageIffUnchanged(last: Prices, current: Snapshot, header: string)
    ensures ChangedMessage(last, current, header) == Ok(None) <==>
            forall i :: 0 <= i < |current| ==> !Changed(last, current[i])
  {
    BlocksOkIff(last, current);
    ChangedEntriesMembers(last, current);
    var ce := ChangedEntries(last, current);
    if ChangedBlocks(last, current).Ok? {
      BlocksOfChangedEntries(last, current);
    }
    if ChangedMessage(last, current, header) == Ok(None) {
      assert ce == [];
      forall i | 0 <= i < |current| ensures !Changed(last, current[i]) {
        assert current[i] !in ce;
      }
    }
    if forall i :: 0 <= i < |current| ==> !Changed(last, current[i]) {
      NothingChangedNothingSelected(last, current);
    }
  }

  lemma {:induction false} NothingChangedNothingSelected(last: Prices, current: Snapshot)
    requires forall i :: 0 <= i < |current| ==> !Changed(last, current[i])
    ensures ChangedEntries(last, current) == []
  {
    if current != [] {
      var prefix := current[..|current| - 1];
      forall i | 0 <= i < |prefix| ensures prefix[i] == current[i] { }
      NothingChangedNothingSelected(last, prefix);
    }
  }

  /** Diffing a snapshot against its own saved form yields no message. */
  lemma SelfDiffIsSilent(s: Snapshot, header: string)
    requires UniqueNames(s)
    ensures ChangedMessage(Stored(s), s, header) == Ok(None)
  {
    forall i | 0 <= i < |s| ensures !Changed(Stored(s), s[i]) {
      GetEntry(s, i);
    }
    NoMessageIffUnchanged(Stored(s), s, header);
  }

  /** The "new" block of every entry, in order. */
  function NewBlocks(s: Snapshot): seq<string> {
    seq(|s|, i requires 0 <= i < |s| => NewBlock(s[i].name, s[i].quote))
  }

  /**
   * When no entry has a truthy saved record (the first run, or names saved
   * as empty objects), every entry is reported with the "new" template.
   */
  lemma AllNewWhenNothingSaved(last: Prices, current: Snapshot, header: string)
    requires current != []
    requires forall i :: 0 <= i < |current| ==> !Truthy(Lookup(last, current[i].name))
    ensures ChangedMessage(last, current, header) == Ok(Some(Text.Join([header, ""] + NewBlocks(current), "\n")))
  {
    AllNewBlocks(last, current);
  }

  lemma {:induction false} AllNewBlocks(last: Prices, current: Snapshot)
    requires forall i :: 0 <= i < |current| ==> !Truthy(Lookup(last, current[i].name))
    ensures ChangedBlocks(last, current) == Ok(NewBlocks(current))
  {
    if current != [] {
      var prefix := current[..|current| - 1];
      forall i | 0 <= i < |prefix| ensures prefix[i] == current[i] { }
      AllNewBlocks(last, prefix);
      assert NewBlocks(current) == NewBlocks(prefix) + [NewBlock(current[|current| - 1].name, current[|current| - 1].quote)];
    }
  }

  /** The "new" template shows no transition arrow unless the entry's own text has one. */
  lemma NewBlockHasNoArrow(name: string, cur: Quote)
    requires '➜' !in name && '➜' !in cur.sell && '➜' !in cur.buy
    ensures '➜' !in NewBlock(name, cur)
  {
  }

  /** The transition shown for the sell side and for the buy side. */
  function Arrow(prev: string, cur: string): string {
    prev + "</code> ➜ <code>" + cur
  }

  /** The "prev ➜ cur" template shows both sell values and both buy values, joined by the arrow. */
  lemma TransitionShowsBoth(name: string, prevSell: string, prevBuy: string, cur: Quote)
    ensures Text.Contains(TransitionBlock(name, prevSell, prevBuy, cur), Arrow(prevSell, cur.sell))
    ensures Text.Contains(TransitionBlock(name, prevSell, prevBuy, cur), Arrow(prevBuy, cur.buy))
  {
    var b := TransitionBlock(name, prevSell, prevBuy, cur);
    var sell, buy := Arrow(prevSell, cur.sell), Arrow(prevBuy, cur.buy);
    var head := "• <b>" + name + "</b>\n" + "  出: <code>";
    var mid := "</code>\n" + "  入: <code>";
    assert b == head + sell + (mid + buy + "</code>");
    Text.OccursInMiddle(head, sell, mid + buy + "</code>");
    assert b == (head + sell + mid) + buy + "</code>";
    Text.OccursInMiddle(head + sell + mid, buy, "</code>");
  }

  /** Where a changed entry's block sits among the blocks. */
  lemma BlockIndex(last: Prices, current: Snapshot, i: nat) returns (k: nat)
    requires i < |current| && Changed(last, current[i])
    requires ChangedBlocks(last, current).Ok?
    ensures k < |ChangedBlocks(last, current).value|
    ensures BlockFor(last, current[i]) == Ok(ChangedBlocks(last, current).value[k])
  {
    BlocksOfChangedEntries(last, current);
    ChangedEntriesMembers(last, current);
    var ce := ChangedEntries(last, current);
    assert current[i] in ce;
    k :| 0 <= k < |ce| && ce[k] == current[i];
  }

  /** Every changed entry's block is part of the message. */
  lemma ChangedEntryInMessage(last: Prices, current: Snapshot, header: string, i: nat)
    requires i < |current| && Changed(last, current[i])
    requires ChangedMessage(last, current, header).Ok?
    ensures BlockFor(last, current[i]).Ok?
    ensures ChangedMessage(last, current, header).value.Some?
    ensures Text.Contains(ChangedMessage(last, current, header).value.value, BlockFor(last, current[i]).value)
  {
    var bs := ChangedBlocks(last, current).value;
    var k := BlockIndex(last, current, i);
    var parts := [header, ""] + bs;
    assert parts[k + 2] == bs[k];
    Text.JoinContains(parts, "\n", k + 2);
  }

  /** Saved prices under names absent from the new snapshot never matter. */
  lemma {:induction false} OnlyNewNamesMatter(last1: Prices, last2: Prices, current: Snapshot, header: string)
    requires forall i :: 0 <= i < |current| ==> Lookup(last1, current[i].name) == Lookup(last2, current[i].name)
    ensures ChangedMessage(last1, current, header) == ChangedMessage(last2, current, header)
  {
    SameBlocks(last1, last2, current);
  }

  lemma {:induction false} SameBlocks(last1: Prices, last2: Prices, current: Snapshot)
    requires forall i :: 0 <= i < |current| ==> Lookup(last1, current[i].name) == Lookup(last2, current[i].name)
    ensures ChangedBlocks(last1, current) == ChangedBlocks(last2, current)
  {
    if current != [] {
      var prefix := current[..|current| - 1];
      forall i | 0 <= i < |prefix| ensures prefix[i] == current[i] { }
      SameBlocks(last1, last2, prefix);
    }
  }

  /**
   * A changed entry whose saved record is truthy and has both fields shows,
   * in the message, its previous and current sell and buy values joined by the arrow.
   */
  lemma ChangedEntryShowsTransition(last: Prices, current: Snapshot, header: string, i: nat)
    requires i < |current| && Changed(last, current[i])
    requires ChangedMessage(last, current, header).Ok?
    requires Truthy(Lookup(last, current[i].name))
    ensures var prev, m := Lookup(last, current[i].name).value, ChangedMessage(last, current, header).value;
            && "sell" in prev && "buy" in prev && m.Some?
            && Text.Contains(m.value, Arrow(prev["sell"], current[i].quote.sell))
            && Text.Contains(m.value, Arrow(prev["buy"], current[i].quote.buy))
  {
    ChangedEntryInMessage(last, current, header, i);
    var prev := Lookup(last, current[i].name).value;
    var m := ChangedMessage(last, current, header).value.value;
    var b := BlockFor(last, current[i]).value;
    TransitionShowsBoth(current[i].name, prev["sell"], prev["buy"], current[i].quote);
    Text.ContainsTransitive(m, b, Arrow(prev["sell"], current[i].quote.sell));
    Text.ContainsTransitive(m, b, Arrow(prev["buy"], current[i].quote.buy));
  }
}
