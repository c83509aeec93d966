/** The running bot's state: the in-memory seen-store (bot.js:19-22), and as
    ghost state the last snapshot written to disk by `saveSeen` (bot.js:24).
    `CheckWatch` is the per-watch runner (bot.js:45-105) and `RunChecks` one
    cycle over the configuration (bot.js:127-131). */
module Bot {
  import opened Options
  import opened Decimals
  import opened Prices
  import opened Fallback
  import opened Thresholds
  import opened Entries
  import opened Runs

  /** The entry of one item (bot.js:52-66): its title, its price (with the
      fallback to the first number-like text), its link and its identity;
      None when no price can be read. */
  method ReadEntry(resolve: Resolver, w: Watch, item: Item) returns (entry: Option<Entry>)
    ensures entry == EntryOf(resolve, w, item)
  {
    var title := Title(item);
    var price := ParsePrice(item.priceText);
    if price.None? {
      var maybe := FirstNumberLike(item.fullText);
      price := ParsePrice(maybe);
    }
    var link := Link(resolve, w, item);
    if price.None? {
      return None;
    }
    var id := Identity(link, title, price.value);
    return Some(Entry(id, title, price.value, link));
  }

  class WatchBot {
    /** Identity -> what was announced under it. */
    var seen: Seen
    /** The store as last written to disk; None while nothing has been
        written and the file read at start-up was absent or unreadable. */
    ghost var saved: Option<Seen>

    /** Whenever a snapshot exists, it is the in-memory store. */
    ghost predicate Valid()
      reads this
    {
      saved.Some? ==> saved.value == seen
    }

    /** Start-up (bot.js:19-22): the stored map when the file could be read
        and parsed, the empty store otherwise. */
    constructor (stored: Option<Seen>)
      ensures Valid()
      ensures seen == (if stored.Some? then stored.value else map[])
      ensures saved == stored
    {
      seen := if stored.Some? then stored.value else map[];
      saved := stored;
    }

    /** One watch: walk the fetched items in order (bot.js:51) and stop early
        when an item aborts the pass. `outcomes[i]` is the sink's answer for
        `page.items[i]`; it is consulted only when a send is attempted. */
    method CheckWatch(resolve: Resolver, w: Watch, page: Fetch, outcomes: seq<Outcome>) returns (notified: seq<string>)
      requires Valid() && FitsPage(page, outcomes)
      modifies this
      ensures Valid()
      ensures seen == WatchRun(resolve, w, old(seen), page, outcomes).seen
      ensures notified == WatchRun(resolve, w, old(seen), page, outcomes).notified
    {
      notified := [];
      if page.FetchFailed? {
        return;
      }
      var items := page.items;
      ghost var entries := EntriesOf(resolve, w, items);
      var i := 0;
      while i < |items|
        invariant 0 <= i <= |items|
        invariant Valid()
        invariant RunEntries(w, old(seen), entries, outcomes, i) == Run(seen, notified, false)
      {
        StepKeepsEarlier(w, seen, notified, entries[i], outcomes[i]);
        var announced, aborted := CheckItem(resolve, w, items[i], outcomes[i]);
        notified := notified + announced;
        if aborted {
          AbortedStays(w, old(seen), entries, outcomes, i + 1, |items|);
          break;
        }
        i := i + 1;
      }
    }

    /** One item (bot.js:52-99): skipped without a price, when already seen or
        when it misses a threshold; otherwise sent, and recorded once the send
        is delivered. */
    method CheckItem(resolve: Resolver, w: Watch, item: Item, outcome: Outcome) returns (announced: seq<string>, aborted: bool)
      requires Valid()
      modifies this
      ensures Valid()
      ensures Step(w, Run(old(seen), [], false), EntryOf(resolve, w, item), outcome) == Run(seen, announced, aborted)
      ensures saved == if announced == [] then old(saved) else Some(seen)
    {
      announced, aborted := [], false;
      var entry := ReadEntry(resolve, w, item);
      if entry.None? {
        return;
      }
      var e := entry.value;
      if e.id in seen {
        return;
      }
      var evaluation := Evaluate(Value(e.price), w.limits);
      if evaluation.meetsPrice && evaluation.meetsProfit {
        match outcome
        case Delivered(at) =>
          seen := seen[e.id := SeenRecord(at, e.title, e.price, e.link)];
          saved := Some(seen);
          announced := [e.id];
        case SendFailed =>
        case Aborted =>
          aborted := true;
      }
    }

    /** One cycle: every configured watch in order, each starting from the
        store the previous one left. */
    method RunChecks(resolve: Resolver, config: seq<Watch>, input: CycleInput) returns (notified: seq<string>)
      requires Valid() && FitsConfig(config, input)
      modifies this
      ensures Valid()
      ensures seen == Cycle(resolve, config, old(seen), input).seen
      ensures notified == Cycle(resolve, config, old(seen), input).notified
    {
      notified := [];
      for i := 0 to |config|
        invariant Valid()
        invariant CycleUpTo(resolve, config, old(seen), input, i) == Run(seen, notified, false)
      {
        assert FitsPage(input.pages[i], input.outcomes[i]);
        var announced := CheckWatch(resolve, config[i], input.pages[i], input.outcomes[i]);
        notified := notified + announced;
      }
    }
  }
}
