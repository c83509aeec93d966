/** What one pass over a watch's items does to the seen-store, and what a
    whole cycle over the configured watches does (bot.js:45-105, 127-131),
    stated as functions of the inputs and the store before the pass.

    The environment arrives as data: the fetched page (or its failure), and,
    per item, how the notification sink would answer a send attempt. */
module Runs {
  import opened Options
  import opened Decimals
  import opened Thresholds
  import opened Entries

  /** What the seen-store keeps per identity (bot.js:92); `ts` is the clock
      reading taken when the record is made. */
  datatype SeenRecord = SeenRecord(ts: int, title: string, price: Decimal, link: string)

  type Seen = map<string, SeenRecord>

  /** How the notification sink answers the send attempt for one item:
      - Delivered(at): `channel.send` resolved, and `Date.now()` then read `at`;
      - SendFailed: `channel.send` rejected; the rejection is caught and logged (bot.js:94-96);
      - Aborted: building the message threw before sending (bot.js:78-87), which
        leaves the item loop for the watch's outer handler (bot.js:102-104). */
  datatype Outcome = Delivered(at: int) | SendFailed | Aborted

  /** One watch's page: fetching, the HTTP status check or the item selection
      failed, or the items it holds in document order. */
  datatype Fetch = FetchFailed | Fetched(items: seq<Item>)

  /** A priced item as the item loop sees it: its identity, title, price and link. */
  datatype Entry = Entry(id: string, title: string, price: Decimal, link: string)

  /** The entry an item gives under a watch, or None when it has no price (bot.js:64). */
  function EntryOf(resolve: Resolver, w: Watch, item: Item): (e: Option<Entry>)
    ensures e.Some? <==> EntryPrice(item).Some?
    ensures e.Some? ==> e.value.price == EntryPrice(item).value && Canonical(e.value.price)
  {
    match EntryPrice(item)
    case None => None
    case Some(price) =>
      var title, link := Title(item), Link(resolve, w, item);
      Some(Entry(Identity(link, title, price), title, price, link))
  }

  predicate Qualifies(w: Watch, e: Entry) {
    Evaluate(Value(e.price), w.limits).Qualifies()
  }

  /** The state of a pass: the store, the identities announced so far in
      this pass, and whether the pass was cut short. */
  datatype Run = Run(seen: Seen, notified: seq<string>, aborted: bool)

  /** One iteration of the item loop (bot.js:51-100) on an item's entry:
      None when the item has no price. */
  function Step(w: Watch, r: Run, entry: Option<Entry>, outcome: Outcome): Run {
    if r.aborted then
      r
    else
      match entry
      case None => r
      case Some(e) =>
        if e.id in r.seen || !Qualifies(w, e) then
          r
        else
          match outcome
          case Delivered(at) =>
            Run(r.seen[e.id := SeenRecord(at, e.title, e.price, e.link)], r.notified + [e.id], false)
          case SendFailed => r
          case Aborted => r.(aborted := true)
  }

  /** The entries of a page's items, in document order. */
  function EntriesOf(resolve: Resolver, w: Watch, items: seq<Item>): seq<Option<Entry>> {
    seq(|items|, j requires 0 <= j < |items| => EntryOf(resolve, w, items[j]))
  }

  /** The item loop after its first n entries, starting from the store `seen`:
      each entry announces at most once. */
  function RunEntries(w: Watch, seen: Seen, entries: seq<Option<Entry>>, outcomes: seq<Outcome>, n: nat): (r: Run)
    requires n <= |entries| == |outcomes|
    ensures |r.notified| <= n
  {
    if n == 0 then
      Run(seen, [], false)
    else
      Step(w, RunEntries(w, seen, entries, outcomes, n - 1), entries[n - 1], outcomes[n - 1])
  }

  /** There is one send outcome per item of a fetched page. */
  predicate FitsPage(page: Fetch, outcomes: seq<Outcome>) {
    page.Fetched? ==> |outcomes| == |page.items|
  }

  /** `checkWatch` (bot.js:45-105) as a function: a failed page changes nothing. */
  function WatchRun(resolve: Resolver, w: Watch, seen: Seen, page: Fetch, outcomes: seq<Outcome>): Run
    requires FitsPage(page, outcomes)
  {
    match page
    case FetchFailed => Run(seen, [], true)
    case Fetched(items) => RunEntries(w, seen, EntriesOf(resolve, w, items), outcomes, |items|)
  }
  /** What the environment does during one cycle: per watch, its page and its send outcomes. */
  datatype CycleInput = CycleInput(pages: seq<Fetch>, outcomes: seq<seq<Outcome>>)

  predicate FitsConfig(config: seq<Watch>, input: CycleInput) {
    && |input.pages| == |config|
    && |input.outcomes| == |config|
    && forall i :: 0 <= i < |config| ==> FitsPage(input.pages[i], input.outcomes[i])
  }

  /** `runChecks` (bot.js:127-131) after its first n watches: each watch sees
      the store the previous ones left, and a watch's failure ends only that watch. */
  function CycleUpTo(resolve: Resolver, config: seq<Watch>, seen: Seen, input: CycleInput, n: nat): Run
    requires FitsConfig(config, input) && n <= |config|
  {
    if n == 0 then
      Run(seen, [], false)
    else
      var before := CycleUpTo(resolve, config, seen, input, n - 1);
      var watch := WatchRun(resolve, config[n - 1], before.seen, input.pages[n - 1], input.outcomes[n - 1]);
      Run(watch.seen, before.notified + watch.notified, false)
  }

  function Cycle(resolve: Resolver, config: seq<Watch>, seen: Seen, input: CycleInput): Run
    requires FitsConfig(config, input)
  {
    CycleUpTo(resolve, config, seen, input, |config|)
  }

  /** The first n cycles of the schedule (bot.js:133-134): one at start-up,
      then one per interval, all over the same configuration. */
  function Rounds(resolve: Resolver, config: seq<Watch>, seen: Seen, rounds: seq<CycleInput>, n: nat): Run
    requires n <= |rounds|
    requires forall k :: 0 <= k < |rounds| ==> FitsConfig(config, rounds[k])
  {
    if n == 0 then
      Run(seen, [], false)
    else
      var before := Rounds(resolve, config, seen, rounds, n - 1);
      var cycle := Cycle(resolve, config, before.seen, rounds[n - 1]);
      Run(cycle.seen, before.notified + cycle.notified, false)
  }

  // ----- properties -----

  /** The store only grows and no record is ever changed; every identity
      announced was new to the store, none is announced twice, and the
      store gains a record exactly for each identity announced. */
  ghost predicate Fresh(before: Seen, after: Seen, notified: seq<string>) {
    && (forall id :: id in before ==> id in after && after[id] == before[id])
    && (forall i :: 0 <= i < |notified| ==> notified[i] !in before)
    && (forall i, j :: 0 <= i < j < |notified| ==> notified[i] != notified[j])
    && (forall id :: id in after <==> id in before || id in notified)
  }

  /** One item: an announcement happens exactly when the item has a price, its
      identity is not in the store, it meets the thresholds and the send is
      delivered; only then does the store change, by one new record. So an
      item without a price, one already seen, one that misses a threshold and
      one whose send fails all leave the store as it was. */
  lemma StepAnnounces(w: Watch, r: Run, entry: Option<Entry>, outcome: Outcome)
    ensures var announces := !r.aborted && entry.Some? && entry.value.id !in r.seen && Qualifies(w, entry.value) && outcome.Delivered?;
      var next := Step(w, r, entry, outcome);
      && (announces ==>
            next.notified == r.notified + [entry.value.id] &&
            next.seen == r.seen[entry.value.id := SeenRecord(outcome.at, entry.value.title, entry.value.price, entry.value.link)])
      && (!announces ==> next.notified == r.notified && next.seen == r.seen)
  {
  }

  /** A step appends to what was announced before it and does not look at it. */
  lemma StepKeepsEarlier(w: Watch, seen: Seen, notified: seq<string>, entry: Option<Entry>, outcome: Outcome)
    ensures var alone := Step(w, Run(seen, [], false), entry, outcome);
      Step(w, Run(seen, notified, false), entry, outcome) == Run(alone.seen, notified + alone.notified, alone.aborted)
  {
  }

  lemma StepFresh(w: Watch, before: Seen, r: Run, entry: Option<Entry>, outcome: Outcome)
    requires Fresh(before, r.seen, r.notified)
    ensures Fresh(before, Step(w, r, entry, outcome).seen, Step(w, r, entry, outcome).notified)
  {
    StepAnnounces(w, r, entry, outcome);
    var next := Step(w, r, entry, outcome);
    if next.notified != r.notified {
      var id := next.notified[|r.notified|];
      assert id !in r.seen;
      forall i | 0 <= i < |r.notified|
        ensures r.notified[i] != id
      {
        assert r.notified[i] in r.seen;
      }
    }
  }

  lemma {:induction false} RunEntriesFresh(w: Watch, seen: Seen, entries: seq<Option<Entry>>, outcomes: seq<Outcome>, n: nat)
    requires n <= |entries| == |outcomes|
    ensures Fresh(seen, RunEntries(w, seen, entries, outcomes, n).seen, RunEntries(w, seen, entries, outcomes, n).notified)
  {
    if n > 0 {
      RunEntriesFresh(w, seen, entries, outcomes, n - 1);
      StepFresh(w, seen, RunEntries(w, seen, entries, outcomes, n - 1), entries[n - 1], outcomes[n - 1]);
    }
  }

  /** A watch's pass announces each identity at most once, only identities the
      store did not hold, and records exactly those. */
  lemma WatchRunFresh(resolve: Resolver, w: Watch, seen: Seen, page: Fetch, outcomes: seq<Outcome>)
    requires FitsPage(page, outcomes)
    ensures Fresh(seen, WatchRun(resolve, w, seen, page, outcomes).seen, WatchRun(resolve, w, seen, page, outcomes).notified)
  {
    if page.Fetched? {
      RunEntriesFresh(w, seen, EntriesOf(resolve, w, page.items), outcomes, |page.items|);
    }
  }

  lemma FreshCompose(s0: Seen, s1: Seen, s2: Seen, n1: seq<string>, n2: seq<string>)
    requires Fresh(s0, s1, n1) && Fresh(s1, s2, n2)
    ensures Fresh(s0, s2, n1 + n2)
  {
    var n := n1 + n2;
    forall i, j | 0 <= i < j < |n|
      ensures n[i] != n[j]
    {
      if i < |n1| && j >= |n1| {
        assert n[i] in s1;
        assert n[j] == n2[j - |n1|];
      }
    }
    forall id
      ensures id in s2 <==> id in s0 || id in n
    {
      assert id in n <==> id in n1 || id in n2;
    }
  }

  lemma {:induction false} CycleUpToFresh(resolve: Resolver, config: seq<Watch>, seen: Seen, input: CycleInput, n: nat)
    requires FitsConfig(config, input) && n <= |config|
    ensures Fresh(seen, CycleUpTo(resolve, config, seen, input, n).seen, CycleUpTo(resolve, config, seen, input, n).notified)
  {
    if n > 0 {
      CycleUpToFresh(resolve, config, seen, input, n - 1);
      var before := CycleUpTo(resolve, config, seen, input, n - 1);
      assert FitsPage(input.pages[n - 1], input.outcomes[n - 1]);
      WatchRunFresh(resolve, config[n - 1], before.seen, input.pages[n - 1], input.outcomes[n - 1]);
      var watch := WatchRun(resolve, config[n - 1], before.seen, input.pages[n - 1], input.outcomes[n - 1]);
      FreshCompose(seen, before.seen, watch.seen, before.notified, watch.notified);
    }
  }

  lemma CycleFresh(resolve: Resolver, config: seq<Watch>, seen: Seen, input: CycleInput)
    requires FitsConfig(config, input)
    ensures Fresh(seen, Cycle(resolve, config, seen, input).seen, Cycle(resolve, config, seen, input).notified)
  {
    CycleUpToFresh(resolve, config, seen, input, |config|);
  }

  /** At most one announcement per identity over any number of cycles, and
      never one for an identity the store held at start-up. */
  lemma {:induction false} RoundsFresh(resolve: Resolver, config: seq<Watch>, seen: Seen, rounds: seq<CycleInput>, n: nat)
    requires n <= |rounds|
    requires forall k :: 0 <= k < |rounds| ==> FitsConfig(config, rounds[k])
    ensures Fresh(seen, Rounds(resolve, config, seen, rounds, n).seen, Rounds(resolve, config, seen, rounds, n).notified)
  {
    if n > 0 {
      RoundsFresh(resolve, config, seen, rounds, n - 1);
      var before := Rounds(resolve, config, seen, rounds, n - 1);
      var input := rounds[n - 1];
      CycleFresh(resolve, config, before.seen, input);
      var cycle := Cycle(resolve, config, before.seen, input);
      FreshCompose(seen, before.seen, cycle.seen, before.notified, cycle.notified);
    }
  }

  /** The entry was announced under `id` with record `rec`: it has a price,
      meets the thresholds, and its send was delivered at `rec.ts`. */
  ghost predicate Announces(w: Watch, entry: Option<Entry>, outcome: Outcome, id: string, rec: SeenRecord) {
    && entry == Some(Entry(id, rec.title, rec.price, rec.link))
    && Qualifies(w, Entry(id, rec.title, rec.price, rec.link))
    && outcome == Delivered(rec.ts)
  }

  lemma {:induction false} RunEntriesRecordsOnlyDelivered(w: Watch, seen: Seen, entries: seq<Option<Entry>>, outcomes: seq<Outcome>, n: nat)
    requires n <= |entries| == |outcomes|
    ensures var r := RunEntries(w, seen, entries, outcomes, n);
      forall id :: id in r.seen && id !in seen ==>
        exists j :: 0 <= j < n && Announces(w, entries[j], outcomes[j], id, r.seen[id])
  {
    if n > 0 {
      RunEntriesRecordsOnlyDelivered(w, seen, entries, outcomes, n - 1);
      var before := RunEntries(w, seen, entries, outcomes, n - 1);
      StepAnnounces(w, before, entries[n - 1], outcomes[n - 1]);
      var r := RunEntries(w, seen, entries, outcomes, n);
      forall id | id in r.seen && id !in seen
        ensures exists j :: 0 <= j < n && Announces(w, entries[j], outcomes[j], id, r.seen[id])
      {
        if id in before.seen {
          var j :| 0 <= j < n - 1 && Announces(w, entries[j], outcomes[j], id, before.seen[id]);
          assert r.seen[id] == before.seen[id];
        } else {
          assert Announces(w, entries[n - 1], outcomes[n - 1], id, r.seen[id]);
        }
      }
    }
  }

  /** Every record a pass adds comes from one of the page's items that has a
      price, meets the thresholds and whose send was delivered, and carries
      that item's title, price, link and delivery time. */
  lemma WatchRunRecordsOnlyDelivered(resolve: Resolver, w: Watch, seen: Seen, items: seq<Item>, outcomes: seq<Outcome>)
    requires |outcomes| == |items|
    ensures var r := WatchRun(resolve, w, seen, Fetched(items), outcomes);
      forall id :: id in r.seen && id !in seen ==>
        exists j :: 0 <= j < |items| && Announces(w, EntryOf(resolve, w, items[j]), outcomes[j], id, r.seen[id])
  {
    var entries := EntriesOf(resolve, w, items);
    RunEntriesRecordsOnlyDelivered(w, seen, entries, outcomes, |items|);
    var r := WatchRun(resolve, w, seen, Fetched(items), outcomes);
    forall id | id in r.seen && id !in seen
      ensures exists j :: 0 <= j < |items| && Announces(w, EntryOf(resolve, w, items[j]), outcomes[j], id, r.seen[id])
    {
      var j :| 0 <= j < |items| && Announces(w, entries[j], outcomes[j], id, r.seen[id]);
      assert entries[j] == EntryOf(resolve, w, items[j]);
    }
  }

  /** The first n entries are covered by a store when every one of them that
      meets the thresholds has its identity in the store. */
  ghost predicate Covered(w: Watch, seen: Seen, entries: seq<Option<Entry>>, n: nat)
    requires n <= |entries|
  {
    forall j :: 0 <= j < n && entries[j].Some? && Qualifies(w, entries[j].value) ==> entries[j].value.id in seen
  }

  lemma {:induction false} DeliveredCovers(w: Watch, seen: Seen, entries: seq<Option<Entry>>, outcomes: seq<Outcome>, n: nat)
    requires n <= |entries| == |outcomes|
    requires forall j :: 0 <= j < |outcomes| ==> outcomes[j].Delivered?
    ensures !RunEntries(w, seen, entries, outcomes, n).aborted
    ensures Covered(w, RunEntries(w, seen, entries, outcomes, n).seen, entries, n)
  {
    if n > 0 {
      DeliveredCovers(w, seen, entries, outcomes, n - 1);
      var before := RunEntries(w, seen, entries, outcomes, n - 1);
      var r := RunEntries(w, seen, entries, outcomes, n);
      StepAnnounces(w, before, entries[n - 1], outcomes[n - 1]);
      assert before.seen.Keys <= r.seen.Keys;
      forall j | 0 <= j < n && entries[j].Some? && Qualifies(w, entries[j].value)
        ensures entries[j].value.id in r.seen
      {
        if j < n - 1 {
          assert entries[j].value.id in before.seen;
        }
      }
    }
  }

  lemma {:induction false} CoveredIsSilent(w: Watch, seen: Seen, entries: seq<Option<Entry>>, outcomes: seq<Outcome>, n: nat)
    requires n <= |entries| == |outcomes|
    requires Covered(w, seen, entries, |entries|)
    ensures RunEntries(w, seen, entries, outcomes, n) == Run(seen, [], false)
  {
    if n > 0 {
      CoveredIsSilent(w, seen, entries, outcomes, n - 1);
      assert 0 <= n - 1 < |entries|;
    }
  }

  /** Fetching the same page again right after a pass whose sends were all
      delivered announces nothing and leaves the store as it was, whatever the
      sink does the second time. */
  lemma RerunIsSilent(resolve: Resolver, w: Watch, seen: Seen, items: seq<Item>, first: seq<Outcome>, second: seq<Outcome>)
    requires |first| == |items| == |second|
    requires forall j :: 0 <= j < |first| ==> first[j].Delivered?
    ensures var once := WatchRun(resolve, w, seen, Fetched(items), first);
      WatchRun(resolve, w, once.seen, Fetched(items), second) == Run(once.seen, [], false)
  {
    var entries := EntriesOf(resolve, w, items);
    DeliveredCovers(w, seen, entries, first, |items|);
    var once := WatchRun(resolve, w, seen, Fetched(items), first);
    CoveredIsSilent(w, once.seen, entries, second, |items|);
  }

  /** Once a pass is cut short, the rest of its items change nothing. */
  lemma {:induction false} AbortedStays(w: Watch, seen: Seen, entries: seq<Option<Entry>>, outcomes: seq<Outcome>, k: nat, n: nat)
    requires k <= n <= |entries| == |outcomes|
    requires RunEntries(w, seen, entries, outcomes, k).aborted
    ensures RunEntries(w, seen, entries, outcomes, n) == RunEntries(w, seen, entries, outcomes, k)
  {
    if n > k {
      AbortedStays(w, seen, entries, outcomes, k, n - 1);
    }
  }

  /** Two items whose links agree share an identity exactly when their prices
      are equal; items without an href on one page all take its URL as link. */
  lemma SharedIdentity(resolve: Resolver, w: Watch, item1: Item, item2: Item)
    requires EntryOf(resolve, w, item1).Some? && EntryOf(resolve, w, item2).Some?
    requires Link(resolve, w, item1) == Link(resolve, w, item2) != ""
    ensures EntryOf(resolve, w, item1).value.id == EntryOf(resolve, w, item2).value.id
        <==> Value(EntryPrice(item1).value) == Value(EntryPrice(item2).value)
  {
    IdentityByPrice(Link(resolve, w, item1), Title(item1), Title(item2), EntryPrice(item1).value, EntryPrice(item2).value);
  }
}
