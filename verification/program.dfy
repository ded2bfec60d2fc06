/**
 * One invocation of `main`: load the state file, scrape, diff, and only when
 * a message was built hand it to Telegram and save the new prices.
 */
module Program {
  import opened Wrappers
  import opened Snapshots
  import opened Scrape
  import opened Diff

  /** The state file's JSON document: its "prices" and "last_sent_at" keys, each possibly absent. */
  datatype State = State(prices: Option<Prices>, lastSentAt: Option<string>)

  /** `load_last_state`: a missing or unreadable file reads as `{}`. */
  function LoadLastState(file: Option<State>): State {
    file.GetOr(State(None, None))
  }

  /** How a run ends: `SystemExit` on a failed scrape, an escaping KeyError, nothing to say, or a send. */
  datatype Outcome = Aborted | Crashed(error: KeyError) | Unchanged | Sent(message: string)

  /** The effect of one run: its outcome, the state file afterwards and the messages sent. */
  datatype Step = Step(outcome: Outcome, file: Option<State>, sent: seq<string>)

  /** What `main` does, given the file, the page and the two clock readings. */
  function RunStep(file: Option<State>, page: Page, stamp: string, sentAt: string): (r: Step)
    ensures r.outcome.Aborted? <==> ScrapeResult(page, stamp).None?
    ensures r.outcome.Crashed? <==>
              && ScrapeResult(page, stamp).Some?
              && ChangedMessage(LoadLastState(file).prices.GetOr(map[]),
                                ScrapeResult(page, stamp).value.prices,
                                ScrapeResult(page, stamp).value.header).Err?
    ensures r.outcome.Aborted? || r.outcome.Crashed? ==> r.file == file && r.sent == []
  {
    var lastState := LoadLastState(file);
    match ScrapeResult(page, stamp)
    case None => Step(Aborted, file, [])
    case Some(scraped) =>
      match ChangedMessage(lastState.prices.GetOr(map[]), scraped.prices, scraped.header)
      case Err(k) => Step(Crashed(k), file, [])
      case Ok(msg) =>
        if msg.Some? && msg.value != "" then
          var saved := lastState.(prices := Some(Stored(scraped.prices)), lastSentAt := Some(sentAt));
          Step(Sent(msg.value), Some(saved), [msg.value])
        else Step(Unchanged, file, [])
  }

  /**
   * A missing or unreadable state file behaves like one whose "prices" is an
   * empty object: `last_state.get("prices", {})` sees no saved record either way.
   */
  lemma MissingFileIsEmptyPrices(page: Page, stamp: string, sentAt: string)
    ensures RunStep(None, page, stamp, sentAt).outcome ==
            RunStep(Some(State(Some(map[]), None)), page, stamp, sentAt).outcome
  {
  }

  /**
   * A message is sent exactly when the diff built it, and the state file is
   * written only then; the saved "prices" are then the new snapshot and
   * "last_sent_at" the send time. Without a message the run reports no change.
   */
  lemma SaveOnlyWithMessage(file: Option<State>, page: Page, stamp: string, sentAt: string)
    ensures var st, sc := RunStep(file, page, stamp, sentAt), ScrapeResult(page, stamp);
            forall m :: st.outcome == Sent(m) <==>
              sc.Some? && ChangedMessage(LoadLastState(file).prices.GetOr(map[]), sc.value.prices, sc.value.header) == Ok(Some(m))
    ensures var st := RunStep(file, page, stamp, sentAt);
            !st.outcome.Sent? ==> st.file == file && st.sent == []
    ensures var st := RunStep(file, page, stamp, sentAt);
            st.outcome.Sent? ==>
              && ScrapeResult(page, stamp).Some?
              && st.sent == [st.outcome.message]
              && st.file == Some(State(Some(Stored(ScrapeResult(page, stamp).value.prices)), Some(sentAt)))
    ensures var st := RunStep(file, page, stamp, sentAt);
            st.outcome.Unchanged? <==>
              && ScrapeResult(page, stamp).Some?
              && ChangedMessage(LoadLastState(file).prices.GetOr(map[]),
                                ScrapeResult(page, stamp).value.prices,
                                ScrapeResult(page, stamp).value.header) == Ok(None)
  {
  }

  /**
   * Re-running on a page that scrapes to the same snapshot, after a run that
   * sent or found nothing new, sends nothing and leaves the state file as it was.
   */
  lemma RerunIsSilent(file: Option<State>, page1: Page, stamp1: string, sentAt1: string,
                      page2: Page, stamp2: string, sentAt2: string)
    requires RunStep(file, page1, stamp1, sentAt1).outcome.Sent? || RunStep(file, page1, stamp1, sentAt1).outcome.Unchanged?
    requires ScrapeResult(page2, stamp2).Some?
    requires ScrapeResult(page2, stamp2).value.prices == ScrapeResult(page1, stamp1).value.prices
    ensures var st := RunStep(file, page1, stamp1, sentAt1);
            RunStep(st.file, page2, stamp2, sentAt2) == Step(Unchanged, st.file, [])
  {
    var st := RunStep(file, page1, stamp1, sentAt1);
    var p := ScrapeResult(page1, stamp1).value.prices;
    var h2 := ScrapeResult(page2, stamp2).value.header;
    ScrapeResultSpec(page1, stamp1);
    if st.outcome.Sent? {
      SelfDiffIsSilent(p, h2);
    } else {
      var last := LoadLastState(file).prices.GetOr(map[]);
      NoMessageIffUnchanged(last, p, ScrapeResult(page1, stamp1).value.header);
      NoMessageIffUnchanged(last, p, h2);
    }
  }

  /**
   * With no saved prices (no file, an unreadable one, or no "prices" key) a
   * successful scrape always sends, and every entry uses the "new" template.
   */
  lemma FirstRunSendsEverything(file: Option<State>, page: Page, stamp: string, sentAt: string)
    requires LoadLastState(file).prices.None?
    requires ScrapeResult(page, stamp).Some?
    ensures var scraped := ScrapeResult(page, stamp).value;
            RunStep(file, page, stamp, sentAt).outcome ==
              Sent(Text.Join([scraped.header, ""] + NewBlocks(scraped.prices), "\n"))
  {
    var scraped := ScrapeResult(page, stamp).value;
    AllNewWhenNothingSaved(map[], scraped.prices, scraped.header);
  }

  /** The side effects `main` has: the state file on disk and the messages handed to Telegram. */
  class Monitor {
    var file: Option<State>
    var outbox: seq<string>

    constructor (file: Option<State>)
      ensures this.file == file && outbox == []
    {
      this.file := file;
      outbox := [];
    }

    /** `main()`, with the page and the two Taipei clock readings as inputs. */
    method Run(page: Page, stamp: string, sentAt: string) returns (outcome: Outcome)
      modifies this
      ensures var st := RunStep(old(file), page, stamp, sentAt);
              outcome == st.outcome && file == st.file && outbox == old(outbox) + st.sent
    {
      var lastState := LoadLastState(file);
      var scraped := ScrapeGoldPrice(page, stamp);
      if scraped.None? {
        return Aborted;
      }
      var msg := BuildChangedMessage(lastState.prices.GetOr(map[]), scraped.value.prices, scraped.value.header);
      if msg.Err? {
        return Crashed(msg.error);
      }
      if msg.value.Some? && msg.value.value != "" {
        outbox := outbox + [msg.value.value];
        lastState := lastState.(prices := Some(Stored(scraped.value.prices)));
        lastState := lastState.(lastSentAt := Some(sentAt));
        file := Some(lastState);
        return Sent(msg.value.value);
      }
      return Unchanged;
    }
  }
}
