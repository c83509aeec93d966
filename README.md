# Watch evaluation engine of the listing-price bot

The bot polls a set of configured *watches*. Each watch is a listing page
plus selectors and price thresholds. For every listing item on a page the
bot reads a title, a price and a link. It computes a dedup identity from
them. It sends a notification for each entry that is new and meets the
watch's thresholds. Once a notification is delivered, it records the
identity in its *seen-store*, a map that it also writes to disk.

This project models that engine in Dafny and proves properties of it:

- `options.dfy`: the `Option` datatype.
- `decimals.dfy`: exact decimal numbers (`Decimal(mantissa, scale)`), with
  a canonical form. `Render` is their plain decimal spelling, which stands
  in for JavaScript's number-to-string conversion.
- `prices.dfy`: the price normaliser `parsePrice`. It keeps the characters
  `[0-9.,-]`, turns the first comma into a point and reads the longest
  numeric prefix the way `parseFloat` does.
- `fallback.dfy`: the fallback price text. This is the first match of
  `([0-9][0-9 .,]{0,10}[0-9])` in an item's whole text, as the leftmost
  and then the longest match.
- `thresholds.dfy`: the threshold decision on `maxPrice`,
  `expectedResaleValue` and `minProfit`.
- `entries.dfy`: the title, link, price and dedup identity
  `(link || title) + '|' + (price || '')` of one item.
- `runs.dfy`: the specification of the runner.
  - `Step` is one iteration of the item loop.
  - `WatchRun` is `checkWatch` as a function.
  - `Cycle` is one `runChecks` pass over the configuration.
  - `Rounds` is the repeated schedule.
  - The file also holds the lemmas about the store.
- `bot.dfy`: the imperative runner. Class `WatchBot` owns the seen-store
  `seen` and, as ghost state, the last snapshot written to disk.
  - `CheckWatch` loops over a page's items.
  - `CheckItem` handles one item.
  - `RunChecks` loops over the watches.
  - Each is proved equal to its specification function in `runs.dfy`.

The environment is passed in as data:

- A `Fetch` is a failed fetch, or the page's items already extracted in
  document order.
- Each item has one `Outcome`:
  - `Delivered(at)`: the send succeeded, and `at` is the clock reading.
  - `SendFailed`: the send was rejected and the error was caught.
  - `Aborted`: building the message threw, which ends the watch.
- A `Resolver` stands in for `new URL(href, base)`.

Prices are exact decimals, not IEEE-754 doubles. Thresholds compare their
exact values as `real`.

Notes on the code:

- The character class `[^0-9.,-]` (bot.js:28) also removes whitespace, so
  the `.trim()` and the `\s+` replacement that follow it change nothing;
  the model leaves them out.
- An empty title becomes the literal "Brak tytułu" (bot.js:52).
- In the identity, `link || title` nearly always takes the link. An item
  without an href takes the watch's page URL as its link. So items on a
  page without hrefs share an identity whenever their prices are equal
  (`Runs.SharedIdentity`). After the first of them is recorded, the others
  are never announced.
- `price || ''` makes a zero price contribute nothing to the identity.

## Model

| member | source | states |
|---|---|---|
| Decimals.Normalize | bot.js:31 | the decimal it builds is canonical (no trailing fraction zero) and has the exact value mantissa / 10^scale |
| Decimals.MakeDecimal | bot.js:31 | a signed magnitude at a given scale becomes a canonical decimal with exactly that value |
| Decimals.CanonicalUnique | bot.js:66 | two canonical decimals with equal value are the same decimal, so a number has one spelling |
| Decimals.NatDigits | bot.js:66 | the decimal digits of a natural number are non-empty, all digits, and spell that number |
| Decimals.DigitsOfMagnitude | bot.js:66 | the integer digits followed by the fraction digits that `Render` prints spell the magnitude of the mantissa |
| Decimals.Render | bot.js:66 | `String(price)` as plain decimal notation; `Prices.RenderIsPriceText` and `Prices.RenderRoundTrip` state that it is comma-free price text that parses back to the same decimal |
| Prices.Clean | bot.js:28 | `replace(/[^0-9.,-]/g, '')`; its meaning is stated by `CleanSpec`, `CleanConcat` and `CleanKeepsPriceText` |
| Prices.CleanSpec | bot.js:28 | cleaning keeps only characters of [0-9.,-], and leaves nothing exactly when the text holds none of them |
| Prices.CleanConcat | bot.js:28 | cleaning a concatenation is the concatenation of the cleaned parts, with order kept |
| Prices.CleanKeepsPriceText | bot.js:28 | text made only of price characters is left unchanged |
| Prices.ReplaceFirstComma | bot.js:30 | `.replace(',', '.')`; its meaning is stated by `ReplaceFirstCommaSpec` and `NoCommaUnchanged` |
| Prices.ReplaceFirstCommaSpec | bot.js:30 | the length is unchanged, the first comma becomes a point and every other character stays |
| Prices.NoCommaUnchanged | bot.js:30 | text without a comma is left unchanged |
| Prices.ParseNumber | bot.js:31-32 | `parseFloat` on cleaned text, with NaN as no value: a value read is canonical; `ParseNumberSomeIff`, `ParseLiteralPrefix` and `RenderRoundTrip` state which value it reads |
| Prices.ParseUnsigned | bot.js:31 | the unsigned part of `parseFloat` after an optional '-': a value read is canonical; its reading is stated through `ParseLiteralPrefix` |
| Prices.ParseNumberSomeIff | bot.js:31-32 | the numeric parse gives a value exactly when the text starts, after an optional '-', with a digit or with a point followed by a digit |
| Prices.ParseLiteralPrefix | bot.js:31 | a decimal literal followed by anything that does not continue it is read as exactly that literal's value (longest prefix) |
| Prices.ParsePrice | bot.js:26-33 | a price read is canonical; `ParsePriceNoText`, `ParsePriceSomeIff` and `RenderRoundTrip` give its meaning |
| Prices.ParsePriceNoText | bot.js:27-29 | absent text, empty text and text without any of [0-9.,-] give no price |
| Prices.ParsePriceSomeIff | bot.js:26-33 | the price is the numeric parse of the cleaned text with its first comma made a point, and it exists exactly when that text starts numerically |
| Prices.ParsePriceOnlyPriceChars | bot.js:28 | the price depends only on the price characters of the text |
| Prices.ParsePriceIgnoresOtherText | bot.js:28 | inserting text without price characters anywhere (spaces, a currency name) leaves the price unchanged |
| Prices.RenderIsPriceText | bot.js:66 | a rendered price consists only of price characters and contains no comma |
| Prices.RenderRoundTrip | bot.js:26-33 | parsing the rendered text of a canonical decimal gives that decimal back, both for the numeric parse and for parsePrice |
| Prices.PolishPrice | bot.js:28-31 | "1 234,56 zł" gives 1234.56 |
| Prices.PrefixOnly | bot.js:30-31 | "1.2.3" and "1,2,3" both give 1.2: reading stops at the second point, and only the first comma becomes a point |
| Prices.NotNumbers | bot.js:31-32 | "-", "." and "abc" give no price |
| Fallback.LongestMatchAt | bot.js:56 | the result is a match at the position, and no longer match up to the bound exists |
| Fallback.FindNumberLike | bot.js:56 | the result is a match, no match starts earlier, and none at its start is longer |
| Fallback.FirstNumberLike | bot.js:56 | a found text has 2 to 12 characters and starts and ends with a digit; none is found exactly when the pattern matches nowhere |
| Thresholds.Evaluate | bot.js:69-75 | meetsPrice iff no maximum is set or the price is at most it; profit exists iff a resale value is set and is resale minus price; meetsProfit fails iff both profit and a minimum profit are set and the profit is below it |
| Thresholds.QualifiesIffUnderCeiling | bot.js:69-77 | an entry qualifies exactly when its price is at most the maximum price and at most resale value minus minimum profit, for those that are set |
| Thresholds.QualifiesDownward | bot.js:69-77 | a cheaper price qualifies whenever a dearer one does |
| Thresholds.NothingConfigured | bot.js:69-75 | with no threshold set every price qualifies and no profit is reported |
| Thresholds.WorkedThresholds | bot.js:69-75 | the maximum-price cases 100/150 and 200/150, and resale 300 with minimum profit 150 and 250 for a price of 100 |
| Entries.Title | bot.js:52 | the title is never empty and is the item's title text whenever that is non-empty |
| Entries.MakeAbsoluteLink | bot.js:41-43 | when URL resolution fails the href is returned unchanged |
| Entries.Link | bot.js:60-62 | an item without an href takes the watch's page URL, and otherwise the resolved href |
| Entries.EntryPrice | bot.js:53-58 | any price read, from the price text or the fallback, is canonical |
| Entries.FallbackParses | bot.js:56-57 | a fallback text, when found, always yields a price |
| Entries.NoPriceIff | bot.js:53-59 | a price from the price text wins over the fallback; an item has no price exactly when its price text gives none and the fallback pattern matches nowhere in its whole text |
| Entries.PriceKey | bot.js:66 | the price part of the identity: the key is empty exactly when the price is zero; `PriceKeyInjective` states that other prices keep distinct keys |
| Entries.Identity | bot.js:66 | the link (or the title when the link is empty), a separator and the price key; `IdentityByPrice` and `Runs.SharedIdentity` state when two items share it |
| Entries.PriceKeyInjective | bot.js:66 | different canonical prices contribute different text to the identity |
| Entries.IdentityByPrice | bot.js:66 | under one non-empty link, two entries share an identity exactly when their prices are equal, whatever their titles |
| Runs.EntryOf | bot.js:52-66 | an item gives an entry exactly when it has a price, and the entry carries that canonical price |
| Runs.Step | bot.js:64-99 | one iteration of the item loop; `StepAnnounces` states when it announces and how the store changes |
| Runs.RunEntries | bot.js:50-100 | the item loop over the first n entries announces at most n identities; `RunEntriesFresh` and `RunEntriesRecordsOnlyDelivered` state the rest |
| Runs.WatchRun | bot.js:45-105 | `checkWatch` as a function; `WatchRunFresh` and `WatchRunRecordsOnlyDelivered` state what it does to the store |
| Runs.CycleUpTo | bot.js:127-131 | `runChecks` after its first n watches; `CycleUpToFresh` states its freshness |
| Runs.Cycle | bot.js:127-131 | one `runChecks` pass over all watches; `CycleFresh` states its freshness |
| Runs.Rounds | bot.js:133-134 | the start-up cycle followed by one cycle per interval, each after the previous has finished; `RoundsFresh` states its freshness |
| Runs.StepAnnounces | bot.js:64-99 | an item is announced exactly when it has a price, is not in the store, qualifies and its send is delivered; then the store gains just its record and otherwise nothing changes |
| Runs.StepFresh | bot.js:67-96 | one item keeps the store growing, its records unchanged, and the announcements new and distinct |
| Runs.RunEntriesFresh | bot.js:50-100 | after any number of items the store has only grown, no record changed, and each announced identity was new and announced once |
| Runs.WatchRunFresh | bot.js:45-105 | a watch's pass only adds records, each for an identity it announced once and that the store did not hold |
| Runs.FreshCompose | bot.js:127-131 | two passes in sequence are fresh together when each is fresh on its own |
| Runs.CycleUpToFresh | bot.js:127-131 | the first watches of a cycle announce each identity once, never one already stored, and record exactly those |
| Runs.CycleFresh | bot.js:127-131 | a whole cycle announces each identity once, never one already stored, and records exactly those |
| Runs.RoundsFresh | bot.js:133-134 | over any number of cycles that do not overlap, each identity is announced at most once and never one stored at start-up |
| Runs.RunEntriesRecordsOnlyDelivered | bot.js:89-96 | every record added by a pass comes from an entry that qualifies and whose send was delivered at the record's time |
| Runs.WatchRunRecordsOnlyDelivered | bot.js:64-96 | every record added by a watch's pass comes from one of its items that has a price, qualifies and whose send was delivered, and carries that item's title, price, link and delivery time |
| Runs.DeliveredCovers | bot.js:64-96 | after a pass whose sends all succeed, every qualifying priced item is in the store |
| Runs.CoveredIsSilent | bot.js:67 | a pass over items that are all already stored announces nothing and changes nothing |
| Runs.RerunIsSilent | bot.js:45-105 | fetching the same page again after a fully delivered pass announces nothing and leaves the store unchanged, whatever the sink does |
| Runs.AbortedStays | bot.js:102-104 | once a pass is aborted, the remaining items change nothing |
| Runs.SharedIdentity | bot.js:60-66 | two priced items with the same non-empty link share an identity exactly when their prices are equal |
| Bot.ReadEntry | bot.js:52-66 | the title, price with fallback, link and identity it computes are the item's entry, or none without a price |
| Bot.WatchBot.constructor | bot.js:19-22 | the store starts as the stored map when it could be read, the empty map otherwise, and matches the snapshot |
| Bot.WatchBot.CheckItem | bot.js:52-99 | the store and announcement after one item are those of one loop step; the snapshot is rewritten exactly when something was recorded |
| Bot.WatchBot.CheckWatch | bot.js:45-105 | the new store and the announced identities are those of the watch's pass; the snapshot still matches the store |
| Bot.WatchBot.RunChecks | bot.js:127-131 | the new store and the announced identities are those of the cycle over all watches in order |

## Left out

- Fetching pages (`fetchHtml`, the HTTP status check): a page is given as
  `Fetched(items)` or `FetchFailed`. A failed page ends its watch with the
  store unchanged.
- The markup library's selection and text extraction: items are given
  already extracted as title text, price text, whole text and href. A
  failing selector is folded into `FetchFailed`.
- URL resolution inside `makeAbsoluteLink`: it belongs to the JavaScript
  runtime, and is passed in as a `Resolver`.
- The Discord client, channel lookup, login and the content of the
  embeds: a send is reduced to its `Outcome`. The embed text (the price
  text shown, the threshold and the profit) is not modelled.
- File I/O for the seen-store: loading is the constructor's `stored`
  parameter. Saving is the ghost `saved` snapshot. A failing `saveSeen`
  would be caught as a send error after the in-memory record was made; it
  is not modelled. Neither is a stored file whose JSON is not a map of
  records.
- Environment and configuration loading and `process.exit`.
- `setInterval`, the one-second pause and async suspension. Cycles are
  taken as sequential. `setInterval(runChecks, …)` (bot.js:134) can start a
  cycle while the previous one is still waiting on `channel.send`; two such
  overlapping cycles can both miss `seen[id]` and announce one identity
  twice. So the at-most-once guarantee of `Runs.RoundsFresh` holds only for
  cycles that do not overlap.
- IEEE-754 details: prices are exact decimals, profit is exact real
  subtraction. `Render` prints plain decimal notation, so the exponent
  notation that JavaScript uses for very large or very small numbers is
  not modelled, and neither is rounding beyond 15 to 17 significant digits.
- `Date.now()`: the clock reading arrives in `Delivered(at)`.
- Bot.WatchBot.CheckWatch: the persisted snapshot is stated only to keep
  matching the store (`Valid`), not rewritten after each record; the
  per-record rewrite is stated by `CheckItem`.
- Bot.WatchBot.CheckWatch and Bot.WatchBot.RunChecks: freshness (the
  store only grows, announcements are new and distinct) is not repeated in
  their contracts. It follows from their equality with `WatchRun` and
  `Cycle` through `Runs.WatchRunFresh` and `Runs.CycleFresh`.
