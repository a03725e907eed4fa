# SPX option-price alert bot, modelled in Dafny

The bot is a Discord cog watching S&P 500 index options on the IG price feed. Users set alerts
with `alert <level> <month> <strike>`: a put on that strike and monthly expiry. The alerts live in
two places. One is the in-memory list `alerts` (the cache). The other is the SQLite table `Alerts`
(the store). A polling task, `background_task`, runs every five minutes. It walks a copy of the
cache and searches the feed for each alert's strike. It reads the bid of the first answer whose
expiry matches. When that bid is strictly above the alert's level, it notifies the owner and
retires the alert from the cache and the store. The `put` and `call` commands build a matrix of
option bids: five out-of-the-money strikes down the side, the first three monthly expiries across
the top.

The model has these modules:

- `Wrappers`: `Option` and `Result`.
- `Lists`: Python's `s[:n]` and `list.remove`.
- `Decimal`: `str()` on integers.
- `Expiry`: the month converter.
- `Feed`: market records, snapshot records and the two feed calls, as oracle functions.
- `AlertDb`: class `Database`, over a flag for whether the table exists and a sequence of rows.
- `Polling`: the meaning of one polling pass, as functions of the cache copy and the feed's answers.
- `TradeCog`: class `TradeCog`, holding the cache and the store, with the `alert`, `delete` and
  `show` commands and one run of `background_task`.
- `OptionsChain`: `spx_options` and the `put`/`call` commands.
- `Scenarios`: short runs of the engine on fixed data.

The feed is modelled as two oracle functions:
- `getPrice(ticker)` stands for `get_price`.
- `search(k, query)` stands for `search_price`: `k` counts the operation's searches from 0, so
  every search of a pass or of a matrix build is its own answer.

Today's date is a parameter of the converter.

Behaviour the model follows as the code has it:
- `delete` leaves the cache as it was.
- The cache is appended to even when the insert fails.
- `result[0]` is not guarded: an alert with no answer for its expiry raises `IndexError` and ends
  the pass. This is modelled as the outcome `NoMatch(i)`.
- The matrix columns are not deduplicated.
- The printed mid price `(sell + buy) * 100 // 2 / 100` is truncated to hundredths, not rounded.
- The year in an expiry is `str(year % 100)`, not padded: December 2099 gives `JAN-100`.
- `select * from Alerts` promises no row order, so the cache loaded at start-up is known only up
  to order (a multiset).

## Model

| member | source | states |
|---|---|---|
| `Lists.Take` | source/trade_cog.py:28 | `s[:n]` has `min(len(s), n)` elements and is a prefix of `s` |
| `Lists.RemoveCount` | source/trade_cog.py:218 | `list.remove(x)` on a list holding `x` takes away exactly one copy of `x` and nothing else; the length drops by one |
| `Lists.RemoveFirstOccurrence` | source/trade_cog.py:218 | `list.remove(x)` removes the first occurrence and leaves the elements before and after it in place |
| `Decimal.ParseNatToString` | source/trade_cog.py:53-55 | reading the digits of `str(n)` back gives `n` |
| `Decimal.NatToStringWidth` | source/trade_cog.py:53-55 | `str(n)` has one character iff `n < 10`, two iff `10 <= n < 100`, and three or more from 100 |
| `Expiry.Convert` | source/trade_cog.py:27-56 | the converter fails exactly when the upper-cased first three characters are not a month key, and the `BadArgument` names that key; otherwise the result starts with the key and a `-` |
| `Expiry.ConvertIsNextOccurrence` | source/trade_cog.py:48-56 | the year written is `year % 100` when the month is not before today's month and `year % 100 + 1` otherwise; so the expiry is the next occurrence of its month, within 12 months |
| `Expiry.ConvertReadsOnlyThreeLetters` | source/trade_cog.py:28 | case, and everything after the third character, do not change the result; for arguments shorter than three characters, equally long ones agreeing up to case convert alike |
| `Expiry.ConvertSixCharacters` | source/trade_cog.py:50-55 | for years whose last two digits are 10 to 98, the expiry is always six characters `MMM-YY` |
| `Expiry.ConvertYearIsNotPadded` | source/trade_cog.py:50-55 | `jan` in December 2099 gives `JAN-100`; `January` in 2005 gives `JAN-5` |
| `Expiry.ConvertRejectsFrench` | source/trade_cog.py:43-47 | `juin` is rejected, and the error names `JUI` |
| `Feed.WithExpiryMembers` | source/trade_cog.py:210 | the filtered answers are exactly the answers with that expiry |
| `Feed.WithExpiryHead` | source/trade_cog.py:210-211 | `result[0]` is the first answer, in feed order, with that expiry |
| `AlertDb.WithoutIdsMembers` | source/database.py:66-72 | after deleting by key, exactly the rows whose key is not deleted remain |
| `AlertDb.WithoutOwnedMembers` | source/database.py:74-80 | a delete by key and owner removes exactly the rows matching both; a row with that key but another owner survives |
| `AlertDb.OwnedByMembers` | source/database.py:54-64 | the owner's listing holds the projection of each of that owner's rows and nothing else |
| `AlertDb.WithoutIdsUnique` | source/database.py:66-72 | deleting by key never creates a repeated key |
| `AlertDb.WithoutOwnedUnique` | source/database.py:74-80 | deleting by key and owner never creates a repeated key |
| `AlertDb.WithoutIdsTwice` | source/database.py:66-72 | two deletes by key in a row are one delete of both keys |
| `AlertDb.DeleteAbsentIsNoop` | source/database.py:66-72 | deleting a key that no row has leaves the table unchanged |
| `AlertDb.DeletePresentRemovesOne` | source/database.py:66-72 | deleting a present key, with unique keys, removes exactly one row |
| `AlertDb.WithoutOwnedCount` | source/database.py:74-80 | each alert's multiplicity after a delete by key and owner: zero if it matches, unchanged otherwise |
| `AlertDb.WithoutIdsCount` | source/database.py:66-72 | each alert's multiplicity after a delete by keys: zero if its key is deleted, unchanged otherwise |
| `AlertDb.Database.constructor` | source/database.py:10-17 | opening the file gives its stored table, or no table |
| `AlertDb.Database.CreateAlertTable` | source/database.py:19-31 | `create table if not exists` is idempotent: the table exists afterwards and its rows are unchanged |
| `AlertDb.Database.InsertAlert` | source/database.py:33-41 | the row is appended exactly when the table exists and the key is new; otherwise nothing changes; keys stay unique |
| `AlertDb.Database.SelectAlerts` | source/database.py:43-52 | `None` exactly when the table is missing; otherwise the rows, in no promised order |
| `AlertDb.Database.SelectMyAlerts` | source/database.py:54-64 | `None` exactly when the table is missing; otherwise the owner's projected rows, in no promised order |
| `AlertDb.Database.DeleteAlert` | source/database.py:66-72 | the table afterwards is the rows without that key; keys stay unique |
| `AlertDb.Database.DeleteMyAlert` | source/database.py:74-80 | the table afterwards is the rows without those matching key and owner; keys stay unique |
| `Polling.QuoteAt` | source/trade_cog.py:206-211 | the k-th quote of a pass is what the k-th visit reads as `result[0]`, from the k-th search, made for that alert's strike |
| `Polling.Reach` | source/trade_cog.py:206-211 | the pass processes every alert before the first one with no answer for its expiry; that one, if any, is where it raises |
| `Polling.KeptMembers` | source/trade_cog.py:213-219 | the survivors are exactly the visited alerts whose bid was not strictly above their level |
| `Polling.KeptAndFiredPartition` | source/trade_cog.py:206-219 | every visited alert of the copy either fires or survives, once: survivors plus fired are a permutation of the visited prefix |
| `Polling.FiredIdsOfFired` | source/trade_cog.py:219 | every fired alert's key is passed to `delete_alert` |
| `Polling.FiredIdsAreVisited` | source/trade_cog.py:206-219 | only keys of visited alerts are deleted |
| `Polling.SurvivorsAreUnfired` | source/trade_cog.py:213-219 | with unique keys, deleting the fired keys from the copy leaves exactly the survivors followed by the unvisited alerts |
| `Polling.CycleKeepsSync` | source/trade_cog.py:213-220 | if the cache held the table's rows before the pass, it holds the table's remaining rows after it |
| `Polling.RetiredAlertsAreGone` | source/trade_cog.py:218-219 | after the pass, no fired key is left in the cache or in the table, so an alert fires at most once |
| `Polling.CacheAfterCount` | source/trade_cog.py:206-218 | after n visits the cache holds, up to order, the survivors and the alerts not yet visited |
| `Polling.CacheAfterOrder` | source/trade_cog.py:206-218 | without duplicate tuples it holds them in exactly that order: removal never disturbs the rest |
| `Polling.NextIsCached` | source/trade_cog.py:218 | the alert being visited is always still in the cache, so `list.remove` never raises `ValueError` in a pass |
| `Polling.PassStep` | source/trade_cog.py:206-220 | the one-step unfolding of the pass's queries, notices, cache and deleted keys for the loop; the single-key delete of a firing alert composes with the earlier deletes into the delete of the fired keys |
| `Polling.QueriesAt` | source/trade_cog.py:206-209 | the pass's k-th query is `US 500 {strike} PUT` for the k-th alert of the copy |
| `Polling.NoticesCount` | source/trade_cog.py:213-217 | one notice per fired alert |
| `Polling.NoticesMembers` | source/trade_cog.py:213-217 | a notice is sent exactly for each visited alert whose bid is above its level, carrying its owner, expiry, strike and that bid |
| `TradeCog.TradeCog.constructor` | source/trade_cog.py:76-81 | start-up creates the table if missing and loads every row, so the cache and the table agree |
| `TradeCog.TradeCog.CreateAlert` | source/trade_cog.py:93-96 | the exact tuple is appended to the end of the cache while the insert may fail; the table gains the row exactly when it exists and the key is new; a cache and table that agreed before agree afterwards exactly in that case |
| `TradeCog.TradeCog.AlertCommand` | source/trade_cog.py:91-96 | a bad month raises `BadArgument` and changes nothing; otherwise the converted alert is appended to the cache, and to the table exactly when the table exists and the key is new |
| `TradeCog.TradeCog.Delete` | source/trade_cog.py:113-116 | only rows with matching key and owner leave the table; the cache is untouched |
| `TradeCog.TradeCog.DeleteSynced` | source/trade_cog.py:113-116 | the same filter applied to the cache too, which keeps the cache and the table in agreement |
| `TradeCog.TradeCog.Show` | source/trade_cog.py:101-110 | "no alerts" exactly when the query fails or the owner has no rows; otherwise the owner's rows |
| `TradeCog.TradeCog.Visit` | source/trade_cog.py:207-220 | one alert: the quote read; when the bid is strictly above the level, a notice, removal from the cache and deletion of its key; otherwise nothing changes |
| `TradeCog.TradeCog.BackgroundTask` | source/trade_cog.py:201-222 | one pass: queries, notices, cache and table after visiting the copy up to the first `IndexError`, and the outcome; a cache that agreed with the table before the pass agrees with it after |
| `TradeCog.TradeCog.BackgroundTaskSkipping` | source/trade_cog.py:201-222 | the same pass when an unquoted alert is skipped: every alert of the copy is visited, and a synced cache stays synced |
| `TradeCog.PassEffects` | source/trade_cog.py:206-220 | the cache after n visits and its agreement with the table after the pass's deletes |
| `OptionsChain.AtmStrikeBrackets` | source/trade_cog.py:138-140 | the put strike is the highest multiple of 100 at or below the mid; the call strike is the lowest strictly above it |
| `OptionsChain.RangeAscending` | source/trade_cog.py:156 | `range(start, stop, step)` with `step > 0` lists `start + k*step` below `stop`, up to the first value at or past `stop` |
| `OptionsChain.RangeDescending` | source/trade_cog.py:156 | `range(start, stop, step)` with `step < 0` lists `start + k*step` above `stop`, down to the first value at or past it |
| `OptionsChain.LadderShape` | source/trade_cog.py:149-156 | exactly five strikes from the at-the-money one, descending by 100 for a put and ascending by 100 for a call |
| `OptionsChain.LaddersAreOutOfTheMoney` | source/trade_cog.py:120-156 | every put strike is at or below the mid, every call strike above it, and the call ladder starts 100 above the put ladder |
| `OptionsChain.MonthlyEpicIsPrefixMatch` | source/trade_cog.py:143-144 | `re.match` reads only the first 18 characters; anything after them is ignored |
| `OptionsChain.MonthlyEpicExamples` | source/trade_cog.py:143 | a monthly epic matches; a weekly one, a three-digit block, a missing `IP` and a newline do not |
| `OptionsChain.MonthlyExpiriesAppend` | source/trade_cog.py:144 | the filter keeps result order: the monthly expiries of a concatenation are those of each part |
| `OptionsChain.MonthlyExpiriesMembers` | source/trade_cog.py:144 | an expiry is listed exactly when a result with a monthly epic carries it |
| `OptionsChain.ExpiriesAreFirstMonthly` | source/trade_cog.py:144-145 | the columns are the first `min(3, n)` monthly expiries, in result order |
| `OptionsChain.ExpiriesKeepDuplicates` | source/trade_cog.py:144-146 | two monthly results with one expiry give that column twice |
| `OptionsChain.CellMeaning` | source/trade_cog.py:163-166 | a cell group is `[None]` exactly when no result has the expiry; otherwise it holds every matching bid, in result order |
| `OptionsChain.RowCellsLength` | source/trade_cog.py:162-168 | every row has at least one cell per column, and exactly one per column iff no column's expiry matches two results |
| `OptionsChain.RowPrices` | source/trade_cog.py:160-167 | the inner loop extends `prices` with each expiry's cell group in column order |
| `OptionsChain.MidTruncates` | source/trade_cog.py:170-171 | the printed mid is the true mid truncated to whole hundredths |
| `OptionsChain.RowsShape` | source/trade_cog.py:156-168 | each row has its ladder strike, reads its own strike's search (the first row the initial one), and has at least one cell per column |
| `OptionsChain.ChainShape` | source/trade_cog.py:134-173 | the header is `Strike` plus the columns; there are five rows, in ladder order; row 0 reuses the first search and row k reads the k-th search; the mid is the truncated one |
| `OptionsChain.SpxOptions` | source/trade_cog.py:134-173 | the built matrix is the one `ChainOf` describes for the feed's answers |
| `OptionsChain.PutCommand` | source/trade_cog.py:120-124 | the put matrix, whose first strike is at or below the mid |
| `OptionsChain.CallCommand` | source/trade_cog.py:126-131 | the call matrix, whose first strike is above the mid |
| `Scenarios.OneAlertPass` | source/trade_cog.py:213-219 | for one cached alert, the pass notifies and retires it iff the bid is strictly above the level; otherwise the cache and table keep it |
| `Scenarios.TriggerIsStrict` | source/trade_cog.py:213 | a bid equal to the level stays quiet, a cent above fires |
| `Scenarios.DeletedAlertStillFires` | source/trade_cog.py:113-116 | after `delete`, the next pass still notifies the owner of the deleted alert; with `DeleteSynced` it does not |
| `Scenarios.UnmatchedExpiryStopsPass` | source/trade_cog.py:210-211 | an alert with no answer for its expiry ends the pass after one search, before a later alert that would fire |
| `Scenarios.UnmatchedExpiryIsSkipped` | source/trade_cog.py:210-211 | when that alert is skipped instead, the later alert fires |
| `Scenarios.DuplicateKeyIsCached` | source/trade_cog.py:93-96 | a second `alert` with a used key leaves two cached tuples and one row |
| `Lists.Remove` | source/trade_cog.py:218 | definition of `list.remove(x)`, characterised by `Lists.RemoveCount` and `Lists.RemoveFirstOccurrence` |
| `Decimal.NatToString` | source/trade_cog.py:53-55 | `str(n)` is a non-empty string of digits, with a leading `0` only for `0`; `Decimal.ParseNatToString` reads it back |
| `Expiry.Upper` | source/trade_cog.py:28 | the ASCII upper-casing keeps the length |
| `Expiry.MonthKey` | source/trade_cog.py:28 | definition of `argument.upper()[:3]`, characterised by `Expiry.Convert` and `Expiry.ConvertReadsOnlyThreeLetters` |
| `Feed.SearchQuery` | source/trade_cog.py:142 | definition of the query `US 500 {strike} {option}`, also sent at line 159; `OptionsChain.ChainShape` states which strike each row searches |
| `Feed.WithExpiry` | source/trade_cog.py:210 | definition of the answers with one expiry, characterised by `Feed.WithExpiryMembers` and `Feed.WithExpiryHead` |
| `AlertDb.UniqueIds` | source/database.py:21 | definition: `alert_id` is the primary key; kept by every `Database` method and by `AlertDb.WithoutIdsUnique` |
| `AlertDb.SameRowsUnique` | source/database.py:21 | unique keys belong to the multiset of rows: a cache holding the table's rows in any order has unique keys |
| `AlertDb.WithoutIds` | source/database.py:66-72 | definition of the rows surviving `delete ... where alert_id=?`, characterised by `AlertDb.WithoutIdsMembers` and `AlertDb.WithoutIdsCount` |
| `AlertDb.WithoutOwned` | source/database.py:74-80 | definition of the rows surviving `delete ... where alert_id=? and user_id=?`, characterised by `AlertDb.WithoutOwnedMembers` and `AlertDb.WithoutOwnedCount` |
| `AlertDb.OwnedBy` | source/database.py:54-64 | definition of `select ... where user_id=?`, characterised by `AlertDb.OwnedByMembers` |
| `Polling.PutQuery` | source/trade_cog.py:209 | definition of the query `US 500 {strike} PUT`, used by `Polling.QueriesAt` |
| `Polling.Quote` | source/trade_cog.py:209-211 | definition of what one visit reads as `result[0]`, or `None` where it raises; characterised by `Polling.QuoteAt` and `Feed.WithExpiryHead` |
| `Polling.Fires` | source/trade_cog.py:213 | definition of the strict trigger `price > level`, characterised by `Polling.KeptMembers`, `Polling.NoticesMembers` and `Scenarios.TriggerIsStrict` |
| `Polling.Kept` | source/trade_cog.py:213-219 | definition of the visited alerts that did not fire, characterised by `Polling.KeptMembers` and `Polling.KeptAndFiredPartition` |
| `Polling.FiredIds` | source/trade_cog.py:219 | definition of the keys passed to `delete_alert`, characterised by `Polling.FiredIdsOfFired` and `Polling.FiredIdsAreVisited` |
| `Polling.CacheAfter` | source/trade_cog.py:206-218 | definition of the cache after n visits, characterised by `Polling.CacheAfterCount` and `Polling.CacheAfterOrder` |
| `Polling.Notices` | source/trade_cog.py:213-217 | definition of the messages sent, characterised by `Polling.NoticesCount` and `Polling.NoticesMembers` |
| `Polling.Queries` | source/trade_cog.py:206-209 | definition of the queries sent, characterised by `Polling.QueriesAt` |
| `OptionsChain.AtmStrike` | source/trade_cog.py:138-140 | definition of the at-the-money strike, characterised by `OptionsChain.AtmStrikeBrackets` |
| `OptionsChain.Range` | source/trade_cog.py:156 | `range(start, stop, step)` has as many elements as Python's `len(range(...))`; its elements are characterised by `OptionsChain.RangeAscending` and `OptionsChain.RangeDescending` |
| `OptionsChain.Ladder` | source/trade_cog.py:149-156 | definition of the strikes iterated, characterised by `OptionsChain.LadderShape` and `OptionsChain.LaddersAreOutOfTheMoney` |
| `OptionsChain.MonthlyEpic` | source/trade_cog.py:143 | definition of `monthly.match(epic)`, characterised by `OptionsChain.MonthlyEpicIsPrefixMatch` and `OptionsChain.MonthlyEpicExamples` |
| `OptionsChain.MonthlyExpiries` | source/trade_cog.py:144 | definition of the filtered expiries, characterised by `OptionsChain.MonthlyExpiriesMembers` and `OptionsChain.MonthlyExpiriesAppend` |
| `OptionsChain.Expiries` | source/trade_cog.py:144-145 | at most three columns; `OptionsChain.ExpiriesAreFirstMonthly` says which |
| `OptionsChain.Cell` | source/trade_cog.py:163-165 | definition of one expiry's cell group, characterised by `OptionsChain.CellMeaning` |
| `OptionsChain.RowCells` | source/trade_cog.py:162-166 | definition of `prices`, characterised by `OptionsChain.RowCellsLength` and computed by `OptionsChain.RowPrices` |
| `OptionsChain.Mid` | source/trade_cog.py:170-171 | definition of the printed mid, characterised by `OptionsChain.MidTruncates` |
| `OptionsChain.Rows` | source/trade_cog.py:156-168 | definition of `table` after the first n strikes, characterised by `OptionsChain.RowsShape` and `OptionsChain.RowsStep` |
| `OptionsChain.RowsStep` | source/trade_cog.py:156-168 | each further strike appends exactly its own row to the table |
| `OptionsChain.ChainOf` | source/trade_cog.py:134-173 | definition of the matrix, characterised by `OptionsChain.ChainShape` and built by `OptionsChain.SpxOptions` |
| `Decimal.IntToString` | source/trade_cog.py:209 | definition of `str(strike)` in the search queries, also at lines 142 and 159; its ensures: at least one character, with a leading `-` exactly for a negative number |
| `AlertDb.Project` | source/database.py:55 | definition of the column list `alert_id, level, expiry, strike`, characterised by `AlertDb.OwnedByMembers` |
| `Polling.NextCache` | source/trade_cog.py:218 | definition of one `alerts.remove` step, characterised by `Polling.CacheAfterCount` and `Polling.NextIsCached` |
| `Polling.NoticeAt` | source/trade_cog.py:215-216 | definition of the message's owner, expiry, strike and bid, characterised by `Polling.NoticesMembers` |
| `OptionsChain.IsPut` | source/trade_cog.py:139-149 | definition of the test `opt == 'Put'`, made at lines 139 and 149; `OptionsChain.LadderShape` and `OptionsChain.AtmStrikeBrackets` state both branches |
| `OptionsChain.BidsFor` | source/trade_cog.py:163 | definition of the bids of the results with one expiry, characterised by `OptionsChain.CellMeaning` |
| `OptionsChain.LadderRow` | source/trade_cog.py:157-167 | definition of `row = [s] + prices`, with `data` left from the first search for the first strike and searched again for the others; characterised by `OptionsChain.RowsShape` |

## Left out

- The HTTP session, login headers and `raise_for_status`. The feed calls are total oracle
  functions, so a failed request, which aborts the pass or the matrix, is not modelled.
- A `None` bid or a missing field in a feed answer: every answer has a real bid.
- Discord: `ctx.send`, `channel.send`, the cooldowns, `before_loop`, `setup`. A notification is a
  returned `Notice` value. The message texts and `tabulate` rendering are not modelled: the matrix
  is returned as header, rows and mid price.
- `tasks.loop(seconds=300)` and `asyncio.sleep(1)`: one pass is one method call.
- Concurrency between the polling task and the commands: each method runs alone.
- Floating point. Prices are exact reals and `//` is a floor. Rounding of IEEE doubles is not
  modelled, nor is the printing of the mid price.
- `re`: the monthly pattern is written by hand. `\d` is an ASCII digit here, while Python also
  accepts other Unicode decimal digits.
- `Expiry.Upper`: only ASCII letters are upper-cased. Python's `str.upper()` also upper-cases
  non-ASCII letters and can lengthen a string (`'ß'` becomes `'SS'`). So `ſep`, which the source
  reads as `SEP`, is rejected here.
- `datetime.date.today()`: the date is a parameter.
- SQLite: a failed `connect` (`conn` is `None`, so later calls raise `AttributeError`), `commit`,
  `close` and durability. `commit` changes nothing in the model. The start-up `commit` is folded
  into the constructor.
- SQLite errors other than a missing table or a repeated key: a locked, read-only or corrupt
  database file. Every method of `Database` catches `sqlite3.Error` and logs it. In the model,
  `CreateAlertTable` always succeeds, and `InsertAlert` always succeeds when the table exists and
  the key is new. Two consequences are lost:
  - A failing `insert_alert` still lets `alert` cache the tuple. The `TradeCog.TradeCog.CreateAlert`
    clause that cache and table agree exactly when the table exists and the key is new holds only
    under this assumption.
  - When the table is missing and `create_alert_table` fails at start-up, `select_alerts` returns
    `None`. `self.alerts` is then `None`, so the pass's `alerts[:]` raises `TypeError` and `alert`'s
    `append` raises `AttributeError`. In the model the table always exists after start-up.
- The `delete` argument arrives as text. SQLite's type affinity compares it with the integer key;
  the model takes the key as an integer.
- Integer width: keys and strikes are unbounded integers. SQLite's 64-bit limit is not modelled.
- `Lists.Remove`: when the element is absent Python raises `ValueError`; the function then returns
  the list unchanged. In a pass the element is always present (`Polling.NextIsCached`).
- `source/main.py`, the bot bootstrap and `cog_unload`, are not part of this model.

## Findings

| source | as written | input that shows it | evidently intended | confidence | as-written member | corrected member |
|---|---|---|---|---|---|---|
| source/trade_cog.py:113-116 | `delete` removes the row from the table but not the tuple from the cache | alert 1 of user 7 at level 52.0, `delete 1`, then a pass quoting 60.0: the owner is notified of the alert they deleted | remove the alert from the cache as well, keeping cache and table equal | not executed | `Scenarios.DeletedAlertStillFires` | `TradeCog.TradeCog.DeleteSynced` |
| source/trade_cog.py:210-211 | `result[0]` with no answer for the alert's expiry raises `IndexError` and ends the pass | a November alert quoted only for December, followed by a December alert quoted above its level: the second alert is never searched | skip the unquoted alert and go on | not executed | `Scenarios.UnmatchedExpiryStopsPass` | `TradeCog.TradeCog.BackgroundTaskSkipping` |

Two behaviours of the code worth knowing when reading the matrix:
- The printed mid is truncated to hundredths, not rounded (`OptionsChain.MidTruncates`).
- The expiry columns keep duplicates: two monthly results with one expiry give that column twice
  (`OptionsChain.ExpiriesKeepDuplicates`).
