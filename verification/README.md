# Token sniper: verified model

The repository is a backend that follows token launches on chain and announces them to clients, and a
desktop client that buys tokens on a bonding curve. This project models the parts with real invariants
in Dafny and proves what they promise:

- `BondingCurve.dfy`, `Splitting.dfy` — quotes on a constant-product curve in u64/u128 arithmetic, runs of
  trades, and trades split into pieces. The program itself never applies a trade; here one trade is a quote
  followed by `set_reserves`, and a trade whose quote fails or whose new reserves would leave u64 changes
  nothing. A u128 subtraction below zero is the outcome `Underflow`, never a precondition. `Underflow` and
  the runs hold of builds that check overflow; no Cargo file asks for that in a release build, and what such
  a build quotes instead is `UncheckedBuyIff` and `UncheckedPriceIff`: on a curve with virtual tokens and at
  a fee up to 100% the same.
- `Utf8.dfy`, `Borsh.dfy`, `Logs.dfy`, `Fetcher.dfy`, `ParserTheorems.dfy`, `RecordBytes.dfy` — the event parser:
  a derived Borsh reader is the list of its fields' kinds, the hand-written create reader is a method that
  consumes a reader.
- `Sessions.dfy`, `UserSessions.dfy` — the WebSocket session registry under arbitrary interleavings of its
  atomic steps, and the same next to the table of users. A run is one process, from any users. Of its CHAR(32) column the model takes that it
  hands texts back filled up with blanks and ignores those when comparing.
- `TokenCache.dfy`, `SlowPath.dfy`, `LiveRuns.dfy` — the eight indexes of the duplicate cache, the SQL
  predicate beside them, the decision whether a new token is announced, and runs over the database and the
  cache together. A run starts from any tables with an empty cache, and a restart empties only the cache.
- `Padre.dfy` — numbered requests over one socket, with timeouts, late replies and a counter that wraps.
- `Database.dfy`, `Highs.dfy` — the upsert merge, the developers' counters, and the all-time high kept twice.
- `Whitelist.dfy`, `Wallets.dfy`, `AutoBuy.dfy`, `Filters.dfy` — two text files, the buy instruction, and the
  filter loop.
- `Common.dfy`, `Arith.dfy`, `Text.dfy` — integer widths, quotients, and string operations they share.

Each stateful component is a class whose methods are tied to functions on its state; the theorems are about
those functions, over every run. Foreign code (Base64, Base58, address derivation, floating point) enters as a
function parameter; a law it must obey is a named predicate.

Where the code does not do what one might expect, the exact condition is proved:

- splitting a purchase can beat the single quote, which the real reserves cap: on a given curve exactly when
  some first part leaves room to pass the cap (`SplitBuyGainsIff`), and on some curve with given reserves
  exactly when the cap is neither zero nor within one of the virtual tokens (`SplitBuySafeIff`);
- splitting a sale can beat selling at once, at every fee strictly between 0 and 100% (`SplitSaleSafeIff`),
  because the fee stays on the curve and later pieces are quoted their share of it (`FeeIsSoldBack`);
- a create record of the old format is taken for the new one exactly when at least 105 bytes follow it and
  the 105th is 0 or 1 (`CreateFallback`);
- AMM buys order the pool's reserves by size, AMM sales do not (`AmmSidesAgreeIff`);
- keys are checked cleaned and registered as sent, so two sessions of one user serve together exactly if
  their keys differ as sent (`UserSessionsIff`); removing the user ends exactly those opened under the stored
  text filled up to 32 characters (`RemovalEndsIff`), so a clean form of the enrolled key keeps its session
  unless that key was clean and ASCII (`EnrolledEndsIff`);
- a removed user can still get or keep a session exactly where it serves already or its key had passed the
  check (`RemovedMayServeIff`);
- a proposal with a blank link or image empties a filled one (`LinkEmptiedIff`);
- the cache keeps texts as they came while the database cleans them, so the cache covers a stored row only
  for clean texts (`CoverageIff`); a row merged from several proposals is covered only while one cache entry
  has both its description and its ticker (`CleanRunCoveredIff`);
- the cache forgets every row at a restart (`RestartUncovers`): the database check is redundant exactly when
  all rows found at the start have come to be covered (`DatabaseCheckRedundantIff`), and rows with a link
  never do while the database answers and their mint is not stored anew (`FoundRowsStayUncovered`);
- after a restart a stored token is still kept back for its link, or its name with its ticker, but not for its
  image, or its description with its ticker (`AnnouncedAfterRestartIff`);
- a token announced without metadata is not remembered (`AnnouncedIff`, `UnfetchedRepeats`);
- the highs in memory and in the database part once a cap reaches 2^63, or where the row started elsewhere
  and no cap has reached its start (`HighsAgreeIff`); AMM buys alone stay below (`AmmBuysKeepHighs`);
- a whitelist entry that is blank, padded, has several lines, or reads as an address does not survive saving
  (`ReloadIff`).

The queries name a column `pool_address` that the table definition (tokenir/src/database.rs:196-212) lacks; the
model follows the queries.

## Model

| member | source | states |
|---|---|---|
| BondingCurves.BondingCurve.Default | tokenir_ui/src/pump_interaction/accounts/bonding_curve.rs:73-86 | a default curve starts with the program's constants |
| BondingCurves.BondingCurve.SetReserves | tokenir_ui/src/pump_interaction/accounts/bonding_curve.rs:67-70 | the two virtual reserves are overwritten and nothing else |
| BondingCurves.BondingCurve.Execute | tokenir_ui/src/pump_interaction/accounts/bonding_curve.rs:18-70 | a trade on the mutable account is one step of the run semantics |
| BondingCurves.BuyIsLargest | tokenir_ui/src/pump_interaction/accounts/bonding_curve.rs:27-37 | the uncapped purchase is the largest amount that still lets the product grow |
| BondingCurves.SaleIsLargest | tokenir_ui/src/pump_interaction/accounts/bonding_curve.rs:59-60 | the gross proceeds are the largest payment that does not shrink the product |
| BondingCurves.QuotesFitTheirWidths | tokenir_ui/src/pump_interaction/accounts/bonding_curve.rs:27-64 | no intermediate value reaches 2^128 and both casts to u64 lose nothing |
| BondingCurves.BuyUnderflowsIff | tokenir_ui/src/pump_interaction/accounts/bonding_curve.rs:37 | the subtraction in a buy goes below zero exactly on a curve without virtual tokens |
| BondingCurves.UncheckedBuyIff | tokenir_ui/src/pump_interaction/accounts/bonding_curve.rs:37-45 | without overflow checks a buy quotes the same, and on a curve without virtual tokens all the real ones |
| BondingCurves.PriceUnderflowsIff | tokenir_ui/src/pump_interaction/accounts/bonding_curve.rs:62-64 | the subtraction in a sale goes below zero exactly when the fee above 100% costs a lamport |
| BondingCurves.UncheckedPriceIff | tokenir_ui/src/pump_interaction/accounts/bonding_curve.rs:62-64 | without overflow checks a sale quotes the same, and when the fee exceeds the gross the excess below 2^64 |
| BondingCurves.BuyLeavesTokens | tokenir_ui/src/pump_interaction/accounts/bonding_curve.rs:18-46 | a buy leaves a token, raises the product, and is the largest such amount cut off at the real reserves |
| BondingCurves.SellKeepsProduct | tokenir_ui/src/pump_interaction/accounts/bonding_curve.rs:48-65 | a sale pays no more than the curve holds and never shrinks the product, whatever the fee |
| BondingCurves.BuyMonotone | tokenir_ui/src/pump_interaction/accounts/bonding_curve.rs:18-46 | more lamports never buy fewer tokens |
| BondingCurves.PriceIsCeiling | tokenir_ui/src/pump_interaction/accounts/bonding_curve.rs:57-64 | the seller keeps the gross times (10000 - fee)/10000, rounded up; without a given fee that is 99% |
| BondingCurves.PriceMonotone | tokenir_ui/src/pump_interaction/accounts/bonding_curve.rs:57-64 | more tokens at a lower fee never pay less |
| BondingCurves.RunKeepsProduct | tokenir_ui/src/pump_interaction/accounts/bonding_curve.rs:18-71 | over every run the product never falls, a purchase raises it, a token remains, other fields stay |
| BondingCurves.NoRunProfits | tokenir_ui/src/pump_interaction/accounts/bonding_curve.rs:18-71 | a run that gives the tokens back leaves at least as much SOL, strictly more if anything was bought |
| Splitting.SplitBuyGainsNothing | tokenir_ui/src/pump_interaction/accounts/bonding_curve.rs:27-45 | buying in pieces yields at most the uncapped single purchase, hence at most an uncapped quote |
| Splitting.SplitBuyGainsIff | tokenir_ui/src/pump_interaction/accounts/bonding_curve.rs:27-45 | on an open curve some split of an amount beats the capped quote exactly when some first part leaves room to pass the cap, and then two parts do |
| Splitting.SplitBuySafeIff | tokenir_ui/src/pump_interaction/accounts/bonding_curve.rs:41-45 | no split of any purchase gains, whatever SOL the curve has, exactly when the cap is zero or at least the virtual tokens less one |
| Splitting.SplitSaleGainsNothing | tokenir_ui/src/pump_interaction/accounts/bonding_curve.rs:59-64 | selling in pieces at any fee pays at most one sale of the sum without a fee |
| Splitting.AnyFeeRewardsSplitting | tokenir_ui/src/pump_interaction/accounts/bonding_curve.rs:62-64 | for every fee strictly between 0 and 100% a curve where two sales beat one |
| Splitting.SplitSaleSafeIff | tokenir_ui/src/pump_interaction/accounts/bonding_curve.rs:57-64 | splitting a sale never helps, on any curve, exactly at fee 0 or at 100% and above |
| Splitting.FeeIsSoldBack | tokenir_ui/src/pump_interaction/accounts/bonding_curve.rs:57-70 | a sale's fee stays in the reserves, and the next sale's gross is that after a feeless sale plus that on the fee, up to a lamport |
| Splitting.HigherFeePaysLess | tokenir_ui/src/pump_interaction/accounts/bonding_curve.rs:57-70 | however a sale is split, a higher fee never pays more in all |
| Splitting.KeptFeeRewardsSplitting | tokenir_ui/src/pump_interaction/accounts/bonding_curve.rs:57-70 | at a fee of one half two pieces get 13 parts where one sale gets 12, at any size, so rounding is not the reason |
| BondingCurves.BuyThenSellLoses | tokenir_ui/src/pump_interaction/accounts/bonding_curve.rs:18-65 | buying and selling everything straight back quotes strictly less than was paid, capped or not |
| Borsh.ReadWritten | tokenir/src/types/logs.rs:206-265 | reading a little-endian integer undoes writing it |
| Borsh.WriteRead | tokenir/src/types/logs.rs:206-265 | writing undoes reading, so each value has one encoding |
| Borsh.DigitAt | tokenir/src/types/logs.rs:206-265 | the byte at index i is the digit of weight 256^i |
| Borsh.FieldExact | tokenir/src/types/logs.rs:119-265 | a field reader accepts exactly the encodings of its kind and leaves what follows |
| Borsh.RecordExact | tokenir/src/types/logs.rs:148-265 | a derived reader accepts exactly the concatenated encodings of its fields |
| Utf8.ValidIff | tokenir/src/types/logs.rs:121-123 | a text is accepted exactly if it is the UTF-8 encoding of some characters |
| Logs.AmmSidesAgreeIff | tokenir/src/types/logs.rs:268-309 | records of a buy and a sale that tell the same become the same trade exactly when base is not the larger side; buys ignore which side is which |
| Fetcher.Reader.ReadText | tokenir/src/types/logs.rs:121-123 | one length-prefixed string is consumed as the format says |
| Fetcher.Reader.ReadKey | tokenir/src/types/logs.rs:124-126 | one 32-byte key is consumed |
| Fetcher.Reader.ReadFlag | tokenir/src/types/logs.rs:127-130 | a missing or invalid flag byte is reported, and an invalid one consumed |
| Fetcher.Reader.ReadCreate | tokenir/src/types/logs.rs:119-146 | the hand-written create reader computes the older format's reading |
| Fetcher.HeaderByHand | tokenir/src/types/logs.rs:121-126 | six hand-written reads are the derived reading of the six header fields |
| Fetcher.Client.ParseOptimized | tokenir/src/fetcher.rs:459-536 | the result depends on the line alone, never on what the reused buffer held |
| ParserTheorems.TradeExact | tokenir/src/types/logs.rs:206-216 | a trade record is read exactly from its encoding |
| ParserTheorems.BuyAmmExact | tokenir/src/types/logs.rs:219-241 | an AMM buy record is read exactly from its encoding |
| ParserTheorems.SellAmmExact | tokenir/src/types/logs.rs:243-265 | an AMM sale record is read exactly from its encoding |
| ParserTheorems.V2Exact | tokenir/src/types/logs.rs:148-164 | a create record of the newer format is read exactly from its encoding |
| ParserTheorems.ParseTrade | tokenir/src/fetcher.rs:476-514 | an encoded trade parses to a buy or a sale with its own fields, whatever follows |
| ParserTheorems.ParseBuyAmm | tokenir/src/fetcher.rs:527-529 | an encoded AMM buy parses to its event, whatever follows |
| ParserTheorems.ParseSellAmm | tokenir/src/fetcher.rs:530-532 | an encoded AMM sale parses to its event, whatever follows |
| ParserTheorems.ParseV2 | tokenir/src/fetcher.rs:515-521 | an encoded create of the newer format never falls through |
| ParserTheorems.ExtensionReadsIff | tokenir/src/types/logs.rs:155-163 | the newer format's extra fields can be read exactly from 105 bytes whose last is a flag |
| ParserTheorems.CreateFallback | tokenir/src/fetcher.rs:515-526 | a header and tail are taken for the newer format exactly when the tail is such an extension, and its bytes give timestamp and token program; otherwise the older reader recovers header and flag |
| ParserTheorems.ReadersAgree | tokenir/src/fetcher.rs:515-526 | where the newer reader succeeds the older does too, with the same six header fields |
| ParserTheorems.ParserAccepts | tokenir/src/fetcher.rs:459-536 | an event comes out exactly for a known discriminator followed by a complete record |
| ParserTheorems.TailIgnored | tokenir/src/fetcher.rs:476-532 | bytes after a buy or a sale never change the event |
| ParserTheorems.InstructionExact | tokenir/src/fetcher.rs:397-449 | an instruction yields an event exactly for its arguments with nothing after them and three accounts that resolve |
| RecordBytes.TradeLayout | tokenir/src/types/logs.rs:206-216 | a trade record is these bytes in this order |
| RecordBytes.BuyAmmLayout | tokenir/src/types/logs.rs:219-241 | an AMM buy record is these bytes in this order |
| RecordBytes.SellAmmLayout | tokenir/src/types/logs.rs:243-265 | an AMM sale record is these bytes in this order |
| RecordBytes.HeaderLayout | tokenir/src/types/logs.rs:121-126 | a create record starts with three prefixed texts, the mint, the curve and the user |
| RecordBytes.ExtensionLayout | tokenir/src/types/logs.rs:156-163 | the newer format goes on with these bytes in this order |
| RecordBytes.ArgsLayout | tokenir/src/fetcher.rs:41-47 | the instruction's arguments are these bytes in this order |
| RecordBytes.CreateFields | tokenir/src/types/logs.rs:119-182 | whichever reader wins, name, symbol, uri, mint, curve and user of the event are those of the record |
| RecordBytes.CreateBare | tokenir/src/types/logs.rs:127-133 | a create record without more is dated by the clock and no token-2022 |
| RecordBytes.CreateExtended | tokenir/src/types/logs.rs:166-180 | one in the newer format keeps its date and is token-2022 exactly under that program |
| RecordBytes.TradeFields | tokenir/src/fetcher.rs:476-514 | each field of a trade event, from the bytes of its record |
| RecordBytes.BuyAmmFields | tokenir/src/types/logs.rs:268-294 | each field of an AMM buy event; the smaller reserve is SOL |
| RecordBytes.SellAmmFields | tokenir/src/types/logs.rs:296-309 | each field of an AMM sale event; base is SOL throughout |
| RecordBytes.InstructionAccounts | tokenir/src/fetcher.rs:397-449 | mint, curve and token program are what the accounts 0, 2 and 7 point to, and nothing comes out if one points nowhere |
| Sessions.AppState.constructor | tokenir/src/main.rs:102-110 | no connections and the counter at zero |
| Sessions.AppState.TakeId | tokenir/src/main.rs:289 | the number handed out is the counter, which then counts up in 64 bits |
| Sessions.AppState.TryAdmit | tokenir/src/main.rs:292-310 | a session is entered exactly if its key has no entry |
| Sessions.AppState.CleanUp | tokenir/src/main.rs:411-435 | the entry goes exactly if it carries the finishing session's number |
| Sessions.AppState.RemoveUser | tokenir/src/main.rs:858-882 | an admin removal drops the key's entry if the user was removed and the key was found |
| Sessions.NumbersCollideIff | tokenir/src/main.rs:288-289 | two attempts share a number exactly when the counter went round a whole number of times between them |
| Sessions.NumbersBelowCounter | tokenir/src/main.rs:288-289 | below 2^64 attempts every number is below the counter |
| Sessions.NumbersNeedValidation | tokenir/src/main.rs:286-289 | only an attempt whose key was validated gets a number or a session |
| Sessions.RegistryIsExact | tokenir/src/main.rs:286-435 | in every interleaving the map holds a number exactly when it is that of the session admitted and neither finished nor revoked since |
| Sessions.OneSessionPerKey | tokenir/src/main.rs:286-317 | two serving sessions never share a key |
| Sessions.FinishSparesOthers | tokenir/src/main.rs:411-435 | a finishing session removes its key exactly if it still serves, and no other entry |
| Sessions.AdmissionIff | tokenir/src/main.rs:293-310 | an attempt is admitted exactly when no session of its key serves, and refused otherwise |
| Sessions.OverForGood | tokenir/src/main.rs:286-435 | an attempt turned away or refused, or a finished session, stays so and never serves |
| UserSessions.TraceIsRun | tokenir/src/main.rs:286-435 | runs with the user table are interleavings of session steps, so every theorem on those holds |
| UserSessions.OpenSession | tokenir/src/main.rs:286-317 | from every state a known key without a session gets one in four steps, and nothing else changes |
| UserSessions.UserSessionsIff | tokenir/src/database.rs:80-87 | two keys of one user serve side by side in some run exactly when they differ as sent |
| UserSessions.OneSessionPerUser | tokenir/src/main.rs:286-317 | a user whose keys are sent clean has at most one serving session |
| UserSessions.RemovalEndsIff | tokenir/src/main.rs:854-882 | dropping what the CHAR(32) column returns ends a session exactly when that was opened under the stored text filled up with blanks |
| UserSessions.EnrolledEndsIff | tokenir/src/database.rs:103-115 | a session under the clean form of an enrolled 32-byte key ends with the removal exactly if that key was clean and ASCII |
| UserSessions.RemovedStayOut | tokenir/src/main.rs:286-289 | once a key has left the table, no attempt under any form of it that had not passed the check gets further |
| UserSessions.CheckDecidedByLast | tokenir/src/database.rs:80-158 | a check passes exactly if the database answers and the last enrolment or removal of the cleaned key was an enrolment |
| UserSessions.RemovalShutsOutIff | tokenir/src/database.rs:155-158 | right after a removal a new attempt passes exactly under another key in the table |
| UserSessions.InFlightIsAdmittedIff | tokenir/src/main.rs:286-317 | an attempt that has passed the check is admitted exactly if no session of its key as sent serves, its user removed or not |
| UserSessions.RemovedMayServeIff | tokenir/src/main.rs:286-317 | a removed user can have a given session later exactly if it serves or its attempt has passed the check and is undecided |
| Padre.PadreClient.constructor | tokenir_ui/src/migration.rs:41-44 | an empty table and the first number 1000 |
| Padre.PadreClient.TakeNumber | tokenir_ui/src/migration.rs:111 | the number handed out is the counter, which then counts up in 32 bits |
| Padre.PadreClient.Register | tokenir_ui/src/migration.rs:115-116 | the caller is entered under its number, dropping whoever was there |
| Padre.PadreClient.OnFrame | tokenir_ui/src/migration.rs:74-93 | which caller a frame takes off the table and what that caller is sent |
| Padre.HistoryIffDelivered | tokenir_ui/src/migration.rs:75-133 | a caller has a history exactly when the first thing to end its wait was a frame with its number that carried it |
| Padre.StatusStep | tokenir_ui/src/migration.rs:75-133 | the shared table does to each request what its own story says: answered by a frame of at least four elements with its number, given up, or pushed off |
| Padre.AtMostOneHistory | tokenir_ui/src/migration.rs:84-87 | no caller is handed two different histories |
| Padre.OutcomeIsFinal | tokenir_ui/src/migration.rs:128-133 | whatever happens afterwards, an outcome never changes |
| Padre.AskedUnderItsNumber | tokenir_ui/src/migration.rs:44-111 | the n-th request takes the n-th number from 1000 on, modulo 2^32 |
| Padre.RequestsConserved | tokenir_ui/src/migration.rs:75-133 | requests that entered the table are pending, matched, or pushed off by a reused number |
| Padre.NothingDisplaced | tokenir_ui/src/migration.rs:110-116 | up to 2^32 requests none is pushed off, so those entered are pending + matched |
| TextOps.TrimIsCore | tokenir/src/database.rs:490-496 | trimming removes white space from both ends and nothing else |
| TextOps.TrimCharacterized | tokenir/src/database.rs:490-496 | what is left is trimmed, and trimmed strings are left alone |
| TextOps.DropNulCharacterized | tokenir/src/database.rs:490-496 | all NULs go, and strings without them are left alone |
| TextOps.DropNulJoins | tokenir/src/database.rs:490-496 | dropping NULs works piece by piece, so the rest keeps its order |
| TextOps.CleanIsIdempotent | tokenir/src/database.rs:490-496 | cleaning is idempotent and fixes exactly the strings without NULs and outer white space |
| TextOps.LinesAfterReturn | tokenir_ui/src/whitelist.rs:26 | a carriage return before a newline belongs to the line end |
| TextOps.LinesAt | tokenir_ui/src/whitelist.rs:26 | a newline ends a line, empty or not, together with a carriage return before it |
| TextOps.LastLine | tokenir_ui/src/whitelist.rs:26 | what follows the last newline is a line unless empty |
| TextOps.LinesOfUnlines | tokenir_ui/src/pump_interaction/puppeting/puppetmaster.rs:29-64 | splitting lines that each end in a newline gives them back |
| TextOps.LinesOfJoin | tokenir_ui/src/whitelist.rs:26-64 | splitting lines joined by newlines gives them back |
| Database.Store.Add | tokenir/src/database.rs:268-319 | a failed transaction changes nothing, a committed one both tables |
| Database.Store.RaiseAth | tokenir/src/database.rs:421-439 | the highs of the rows with the pool address are raised |
| Database.NewRowColumns | tokenir/src/database.rs:287-313 | a new row has each text of the token, cleaned, in its own column |
| Database.RaiseReachesNewRow | tokenir/src/database.rs:421-439 | a high seen under the address a token was added with reaches its row and no row with another address |
| Database.MergeAssociative | tokenir/src/database.rs:293-301 | the upsert merge is associative |
| Database.MergeIdempotent | tokenir/src/database.rs:293-301 | the upsert merge is idempotent |
| Database.FoldInBatches | tokenir/src/database.rs:287-301 | merging a batch at once is merging its rows one by one |
| Database.ReplayIsHarmless | tokenir/src/database.rs:287-301 | replaying a whole history changes nothing |
| Database.FoldAth | tokenir/src/database.rs:294 | the merged high is the largest one merged |
| Database.FoldIsLastEffective | tokenir/src/database.rs:295-301 | each merged text is the last effective proposal, the developer is the first row's |
| Database.LinkEmptiedIff | tokenir/src/database.rs:297-298 | a filled link or image is emptied exactly by a blank proposal |
| Database.RowIsFold | tokenir/src/database.rs:268-439 | after any run a row exists and is the merge of what was contributed to it, exactly if anything was |
| Database.RunsKeepText | tokenir/src/database.rs:293-301 | a high never falls, a filled text never empties, a token keeps its developer |
| Database.CommitIff | tokenir/src/database.rs:274-318 | a new row is accepted only for a developer address that is already clean |
| Database.CountsCoverRows | tokenir/src/database.rs:186-318 | over every run no developer has more rows than counted tokens |
| Database.CounterIsCommits | tokenir/src/database.rs:274-318 | the counter counts committed calls; a rolled-back one leaves no trace |
| Highs.Token.Fresh | tokenir/src/token.rs:43-69 | a fresh token has the fresh cap as market cap and high |
| Highs.Token.Update | tokenir/src/token.rs:71-85 | a trade sets reserves and cap and raises the high; with zero reserves it then panics and leaves the high |
| Highs.LastTradeShows | tokenir/src/token.rs:71-85 | market cap and reserves become those of the trade, and the high moves only to a cap above it |
| Highs.TrackShowsLast | tokenir/src/token.rs:71-85 | after any run market cap and reserves are those of the last buy |
| Highs.UsdMcapBrackets | tokenir/src/token.rs:113-116 | there is a cap unless the reserves are zero; until it saturates or outgrows u64 it is the rounded-down quotient |
| Highs.UsdMcapExact | tokenir/src/token.rs:113-116 | the product stops at 2^128 - 1 and the quotient keeps 64 bits |
| Highs.MemoryIsHighest | tokenir/src/token.rs:71-80 | the high in memory is the largest of the fresh cap and everything observed |
| Highs.RowIsHighest | tokenir/src/main.rs:225-234 | the high in the row is the largest of its first value and the observations as i64, nothing else changes |
| Highs.HighsAgreeIff | tokenir/src/main.rs:225-234 | from any row, the two highs agree exactly when every observed cap is below 2^63 and, unless the row started at the fresh cap, one reached both starts |
| Highs.HighsAgreeAfterAddIff | tokenir/src/database.rs:287-432 | the same from `add_token` on, for a new mint or one with a row, under the address the token was added with |
| Highs.AmmCapBounded | tokenir/src/types/logs.rs:268-294 | the cap seen in an AMM buy is at most a million times the price |
| Highs.AmmBuysKeepHighs | tokenir/src/main.rs:225-234 | while the price times a million is below 2^63, AMM buys never part the highs |
| Highs.OrderIsIrrelevant | tokenir/src/database.rs:426-432 | neither high depends on the order of the buys |
| Duplicates.TokenCache.constructor | tokenir/src/main.rs:52-62 | an empty cache stands for no records |
| Duplicates.TokenCache.CheckDuplicate | tokenir/src/main.rs:451-513 | a duplicate is reported exactly when an inserted record shares with the query |
| Duplicates.TokenCache.InsertToken | tokenir/src/main.rs:515-551 | the eight indexes stand for one more record |
| Duplicates.SingleIndexes | tokenir/src/main.rs:523-549 | each plain index holds exactly the inserted values |
| Duplicates.PairIndexes | tokenir/src/main.rs:529-547 | each pair index holds exactly the inserted pairs |
| Duplicates.CheckIff | tokenir/src/main.rs:459-512 | after any inserts a query is a duplicate exactly by image, link, name, or description and ticker |
| Duplicates.PairLookupsRedundant | tokenir/src/main.rs:475-503 | the description-name and name-ticker lookups never decide anything |
| Duplicates.VerdictsPersist | tokenir/src/main.rs:451-551 | a verdict never goes back to false |
| Duplicates.CacheCoversDatabase | tokenir/src/database.rs:330-341 | a cache holding every row is at least as strict as the SQL predicate under its null rules |
| Duplicates.CacheVersusDatabase | tokenir/src/database.rs:330-341 | with exactly the rows it differs only by rejecting a known name on its own |
| Duplicates.CoverageIff | tokenir/src/main.rs:779-795 | the cache entry covers the stored row for every query exactly when the token's texts are clean |
| Duplicates.ProcessFastCreate | tokenir/src/main.rs:585-692 | the decision on one create and what it adds to the cache |
| Duplicates.NoRepeats | tokenir/src/main.rs:585-698 | in a serial run of one process no announced token repeats link or name of an earlier one with metadata, nor with metadata its image or description and ticker |
| Duplicates.AnnouncedIff | tokenir/src/main.rs:585-698 | after any run exactly when a token is announced and when it is remembered |
| Duplicates.UnfetchedRepeats | tokenir/src/main.rs:587-615 | a token announced without metadata is announced again |
| SlowPath.RowCoveredIff | tokenir/src/database.rs:330-341 | the cache answers whatever a row does exactly when image, link and name are held, and description with ticker by one entry |
| SlowPath.SinceStart | tokenir/src/main.rs:102-110 | any run through restarts ends as one without, from the tables the last start found |
| SlowPath.CleanRunCoveredIff | tokenir/src/main.rs:779-795 | from any tables, after storing clean tokens a row first stored since the start is covered exactly when one entry has its description and its ticker |
| SlowPath.MergeKeepsCoverIff | tokenir/src/database.rs:293-301 | a further proposal that fills description and ticker both or neither, or leaves no description, keeps a row covered; otherwise the row answers one query of the mixed pair, and is covered exactly if an entry answers it |
| SlowPath.DatabaseCheckRedundantIff | tokenir/src/main.rs:711-738 | from any tables, storing clean tokens and each mint once, with none on its way, the database check rejects nothing the cache lets through exactly when every row found at the start has come to be covered |
| SlowPath.RestartUncovers | tokenir/src/main.rs:102-110 | after a restart every row with a name and a ticker answers a query the cache does not |
| SlowPath.StoredThenRestarted | tokenir/src/main.rs:951-962 | one clean token stored, cached, then a restart: its link is known to the database alone |
| SlowPath.MixedRow | tokenir/src/database.rs:293-301 | stored twice, a clean token can have a row the database answers for and the cache does not |
| LiveRuns.RunIsMoves | tokenir/src/main.rs:553-801 | one token at a time on both paths, tables and cache move as atomic steps move them |
| LiveRuns.FastQueryIff | tokenir/src/main.rs:575-581 | the fast path's database query finds exactly rows with the link or with name and ticker |
| LiveRuns.AnnouncedIff | tokenir/src/main.rs:583-698 | in every state a create is announced, and with metadata remembered, exactly when nothing cached shares with it and, with metadata, it is in time and no row has its link or its name with its ticker |
| LiveRuns.StoredIff | tokenir/src/main.rs:709-797 | in every state a slow token is cached exactly when its community checks pass, no entry holds it and no row knows it, and the table takes it unless rolled back |
| LiveRuns.AnnouncedAfterRestartIff | tokenir/src/main.rs:575-645 | right after a restart only link or name with ticker keeps a stored token back, and nothing without metadata |
| LiveRuns.StoredIsNotRepeated | tokenir/src/main.rs:575-645 | through any restarts a stored link, or name with ticker, is not announced again with metadata while the database answers |
| LiveRuns.FoundRowsStayUncovered | tokenir/src/main.rs:711-738 | while the database answers, the link of a row found at the start never enters the cache, so the database check never becomes redundant |
| Whitelists.Whitelist.LoadFile | tokenir_ui/src/whitelist.rs:22-43 | the list is the entries of the file; a file that cannot be read is replaced by an empty one |
| Whitelists.Whitelist.Add | tokenir_ui/src/whitelist.rs:45-48 | the entry is in and the file rewritten; it then loads back as the list exactly when all entries are canonical |
| Whitelists.Whitelist.ToFile | tokenir_ui/src/whitelist.rs:54-66 | a successful write leaves the set in the file, in some order |
| Whitelists.Whitelist.Collected | tokenir_ui/src/whitelist.rs:55-63 | the content lists every entry once, in some order |
| Whitelists.EntriesIff | tokenir_ui/src/whitelist.rs:26-37 | an entry is loaded exactly if some line trims to its text |
| Whitelists.LoadedIsCanonical | tokenir_ui/src/whitelist.rs:22-43 | everything loaded is canonical |
| Whitelists.ReloadIff | tokenir_ui/src/whitelist.rs:22-66 | a whitelist written in any order loads back as itself exactly when its entries are canonical |
| Whitelists.SaveAndReload | tokenir_ui/src/whitelist.rs:22-66 | loading, saving and loading again is loading once |
| Whitelists.ReloadAfterAddsIff | tokenir_ui/src/whitelist.rs:22-66 | after a load and any additions the list survives saving exactly when the additions are canonical |
| Wallets.Encode | tokenir_ui/src/pump_interaction/puppeting/puppetmaster.rs:29-40 | one line for the master and one for each puppet, in order |
| Wallets.Decode | tokenir_ui/src/pump_interaction/puppeting/puppetmaster.rs:59-85 | decoding succeeds exactly when there is a line and every line is a key, keeps the order, and otherwise names the first thing wrong |
| Wallets.SaveAndLoad | tokenir_ui/src/pump_interaction/puppeting/puppetmaster.rs:29-85 | reading the saved file returns the master and every puppet in order |
| AutoBuy.ChargedIsFeeIff | tokenir_ui/src/autobuy.rs:123-127 | the charge rounded up is the configured fee exactly when the price fits u64 |
| AutoBuy.Data | tokenir_ui/src/pump_interaction/instructions/buy.rs:33-38 | the bytes are the discriminator and the two encoded words |
| AutoBuy.DataIsRead | tokenir/src/fetcher.rs:37-53 | those 24 bytes are the only ones the backend's layout reads as that instruction |
| AutoBuy.AskPanicsIff | tokenir_ui/src/autobuy.rs:141-149 | asking panics exactly on a finished curve, and where overflow is checked on one without tokens, for which other builds ask for all the real ones |
| Filters.FilterSet.AddFilter | tokenir_ui/src/filter.rs:40-42 | a filter is put under its tag |
| Filters.FilterSet.RemoveFilter | tokenir_ui/src/filter.rs:44-46 | a tag's filter is removed |
| Filters.FilterSet.Matches | tokenir_ui/src/filter.rs:48-120 | in every order of the map the answer is one formula in bounds and counts that ignores mismatched tags |

## Left out

- NoRepeats: says nothing about creates handled concurrently, because the check and the insert take separate locks; nor do the theorems of `LiveRuns.dfy`.
- RegistryIsExact: assumes at most 2^64 numbers handed out; beyond that `NumbersCollideIff` says which numbers repeat.
- ParseOptimized: Base64, the pool address and the price impact are parameters, so `virtual_sol_reserves_after` of a trade is whatever the floating-point code returns.
- Matches: the migration percentage is a parameter, because the program computes it in floating point.
- Add: after a failed write nothing is said of the file, since `fs::write` may have truncated it.
- Update: what becomes of the task whose division panicked is not modelled; in the runs the next buy follows.
- SaveAndLoad: Base58 and key derivation are parameters with a stated inverse law.
- Network, RPC, HTTP, metadata fetching, Jito and reconnect timing: input and output.
- User interface, admin panel, launcher and logging.
- `process_slow_create`: what its community checks find is a parameter.
- Administrators and hints of the user table, medians, and ordering by creation time.
- Slippage, computed in floating point.
- The token pool of the backend, the bundler and the account-list builders: they would add only easy members.
