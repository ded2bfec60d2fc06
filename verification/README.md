# Gold price monitor (goldspp.py) in Dafny

This project models the core of `goldspp.py`, a script that runs once per
invocation. It scrapes the precious-metal price table of a dealer's page into
a dict `name -> {"sell", "buy"}`. It then diffs that snapshot against the
prices saved in `state.json` and formats one Telegram block per changed item.
Only when a message was built does it send it and save the new prices.

Modules, one per concern of the script:

- `Wrappers`: `Option` (Python's `None`) and `Result` (an exception that escapes).
- `Text`: `"\n".join(...)` and substring occurrence.
- `Snapshots`: the snapshot as an insertion-ordered dict (`seq<Entry>` with unique names).
  `Put` is dict assignment: an existing key keeps its position and takes the new value.
  `Stored` is the saved-and-reloaded JSON form (`map<string, map<string, string>>`).
  `Lookup` is `old.get(name)` on those loaded prices; `Get` is the same lookup on a snapshot.
- `Scrape`: the row-filter loop of `scrape_gold_price` (`ScrapeGoldPrice`, nested `for` loops).
  It is proved equal to the function `Collect`, and the lemmas characterise `Collect`.
- `Diff`: `build_changed_message` (`BuildChangedMessage`, a loop appending blocks).
  It is proved equal to `ChangedMessage`, and the lemmas characterise `ChangedMessage`.
- `Program`: `main`. The class `Monitor` holds what a run changes: the state file and the messages handed to Telegram.
  `Run` is proved equal to the function `RunStep`, about which the gating and idempotence lemmas speak.

Inputs the script takes from the outside world are parameters:

- the fetched page (`Page`: a failed fetch, or the tables as rows of stripped cell texts);
- the Taipei clock, read twice: the header stamp and `last_sent_at`;
- the loaded state file (`None` when missing or unreadable).

Behaviour as written in `goldspp.py`, which the model follows:

- Only rows with exactly three `td` cells count. A row is skipped when its name is empty or contains 出 or 入.
  There are no header/category rows and no single-value rows.
- A later row with an existing name overwrites the value, and the name keeps its first position.
- Only changed entries get a block; unchanged ones are not listed.
  A changed entry whose saved value is missing or an empty object (falsy) uses the "new" template.
  Any other changed entry uses the "prev ➜ cur" template.
- The state is saved after every built message, even when `send_telegram_message` fails or credentials are missing,
  because that function swallows its errors. A failed POST is only logged (goldspp.py:115-120),
  and lines 136-139 then save the new prices anyway. So a failed delivery is not retried on the next run.
- A saved record that is a non-empty object lacking `"sell"` or `"buy"` makes the f-string raise `KeyError`.
  That exception escapes `main`: the model's `Crashed` outcome, with nothing sent or saved.

## Model

| member | source | states |
|---|---|---|
| `Snapshots.Get` | goldspp.py:66-67 | looking a name up in a snapshot finds a quote exactly when the name is one of its keys |
| `Snapshots.Put` | goldspp.py:66-67 | `prices[name] = quote` keeps the key order when the name exists and appends the name otherwise |
| `Snapshots.PutGet` | goldspp.py:66-67 | after `prices[name] = quote` the name maps to the quote and every other name keeps its value |
| `Snapshots.PutKeepsUnique` | goldspp.py:66-67 | assignment never produces a second entry for a name |
| `Snapshots.Stored` | goldspp.py:17-32 | the saved prices, read back and looked up with `old.get(name)` (line 80), have exactly the snapshot's names, each mapped to `{"sell": sell, "buy": buy}` |
| `Scrape.Header` | goldspp.py:51-55 | the header starts with the bold title line |
| `Scrape.KeptIff` | goldspp.py:60-65 | a row is kept exactly when it has three cells and a non-empty name in which neither `"出"` nor `"入"` occurs as a substring |
| `Scrape.AllRowsMembers` | goldspp.py:57-58 | the loops visit every row of every table and nothing else |
| `Scrape.Collect` | goldspp.py:57-67 | the dict built from the rows has unique names |
| `Scrape.CollectNames` | goldspp.py:60-67 | the keys are the names of the kept rows, each at its first occurrence, in row order |
| `Scrape.CollectHas` | goldspp.py:60-67 | a name is a key exactly when some row with three cells and a non-empty name without 出 or 入 carries it |
| `Scrape.CollectGet` | goldspp.py:64-67 | the quote of a name is that of its last kept row (later duplicates overwrite) |
| `Scrape.ScrapeResult` | goldspp.py:34-73 | a failed fetch returns nothing; a returned snapshot is non-empty with unique keys, and the header is built from the stamp |
| `Scrape.ScrapeResultSpec` | goldspp.py:36-73 | scraping returns nothing exactly when the fetch failed or no row of any table is kept; otherwise unique keys, last-row quotes and the stamped header |
| `Scrape.ScrapeGoldPrice` | goldspp.py:34-73 | the nested row-filter loops compute exactly `ScrapeResult` |
| `Diff.UnchangedIff` | goldspp.py:80-81 | `prev != cur` is false exactly when the name is saved with a record holding only `"sell"` and `"buy"`, equal to the current strings |
| `Diff.FalsyIsChanged` | goldspp.py:80-83 | an entry whose saved value is missing or an empty object always counts as changed, so it always gets the "new" template |
| `Diff.SavedIsTruthy` | goldspp.py:83 | a quote in the form the script saves it (line 136) is never falsy |
| `Diff.BlockFor` | goldspp.py:83-94 | a changed entry's f-string raises `KeyError` exactly when its saved value is truthy and lacks `"sell"` or `"buy"`; a missing `"sell"` is the key reported |
| `Diff.BlockHeading` | goldspp.py:84-94 | every block, "new" or transition, starts with the bullet and the bold name of its own entry |
| `Diff.SavedPricesNeverRaise` | goldspp.py:83-88 | prices this script saved itself never make the diff raise `KeyError` |
| `Diff.ErrorStops` | goldspp.py:83-88 | a `KeyError` raised for one entry ends the whole diff with that error |
| `Diff.ChangedMessage` | goldspp.py:76-98 | a returned message always starts with the header followed by an empty line |
| `Diff.BuildChangedMessage` | goldspp.py:75-98 | the loop over `new.items()` computes exactly `ChangedMessage` |
| `Diff.ChangedEntriesMembers` | goldspp.py:79-81 | an entry is selected exactly when it is in the new snapshot and `prev != cur` |
| `Diff.BlocksOkIff` | goldspp.py:79-94 | the diff fails exactly when some changed entry's block raises `KeyError` |
| `Diff.BlocksOfChangedEntries` | goldspp.py:79-94 | the blocks are exactly one per changed entry, in the new snapshot's order |
| `Diff.NoMessageIffUnchanged` | goldspp.py:79-82 | no message is returned exactly when no entry of the new snapshot differs from its saved value |
| `Diff.SelfDiffIsSilent` | goldspp.py:79-82 | diffing a snapshot against its own saved form returns no message |
| `Diff.AllNewWhenNothingSaved` | goldspp.py:80-83 | when no entry has a truthy saved value (first run, or empty objects), the message lists every entry with the "new" template, in order |
| `Diff.NewBlockHasNoArrow` | goldspp.py:89-94 | the "new" template contains no ➜ unless the entry's own text does |
| `Diff.TransitionShowsBoth` | goldspp.py:84-88 | the transition template shows previous and current sell, and previous and current buy, joined by ➜ |
| `Diff.ChangedEntryInMessage` | goldspp.py:79-98 | every changed entry's block occurs in the returned message |
| `Diff.ChangedEntryShowsTransition` | goldspp.py:83-88 | for a changed entry with a truthy saved value, the message shows its previous and current sell and buy joined by ➜ |
| `Diff.OnlyNewNamesMatter` | goldspp.py:79-80 | saved prices under names absent from the new snapshot never affect the result |
| `Program.MissingFileIsEmptyPrices` | goldspp.py:17-24 | a missing or unreadable state file leads to the same outcome as a file whose `"prices"` is an empty object, through `.get("prices", {})` at line 129 |
| `Program.RunStep` | goldspp.py:122-141 | a run aborts exactly when scraping returned nothing and crashes exactly when the diff raised; in both cases nothing is sent and the state file is untouched |
| `Program.SaveOnlyWithMessage` | goldspp.py:128-141 | the run sends message `m` exactly when the diff of the loaded prices against the scrape built `m`; state is written only then, with the new snapshot as `prices` and the send time as `last_sent_at` |
| `Program.RerunIsSilent` | goldspp.py:123-141 | after a run that sent or found no change, a run on any page that scrapes to the same snapshot sends nothing and leaves the state file unchanged |
| `Program.FirstRunSendsEverything` | goldspp.py:123-139 | with no saved prices a successful scrape always sends every entry in the "new" template |
| `Program.Monitor.Run` | goldspp.py:122-141 | one run changes the state file and the outbox exactly as `RunStep` says |

## Left out

- HTTP fetch of the page and its failure handling (goldspp.py:35-42): network I/O; a failed fetch is the `FetchFailed` page.
- HTML parsing with BeautifulSoup (goldspp.py:44-45, 58-63): a library outside the model. A page is given as tables of rows of stripped `td` texts.
  Rows that `find_all` would report twice for nested tables are not modelled.
- Reading and writing `state.json` (goldspp.py:17-32): file I/O. A missing or unreadable file is `None`.
  A failed write, which the script only logs, is not modelled. Other top-level keys of the file are not modelled.
  Saved prices are modelled as objects with string fields; other JSON values under a name are not.
- A state file that loads as a JSON value other than an object (`[]`, `null`), or whose `"prices"` is not an object:
  `.get` then raises `AttributeError` (goldspp.py:129 and 80). `State` holds only objects, so these runs are not modelled.
- The Taipei clock (goldspp.py:53-54, 137-138): the two readings are string parameters.
- `send_telegram_message` (goldspp.py:100-120): environment lookup and the HTTP POST. A built message is appended to the outbox.
  Whether Telegram accepts it is not modelled; the script ignores that outcome anyway.
- Logging throughout, and `SystemExit` (goldspp.py:125-126), which is the `Aborted` outcome.
