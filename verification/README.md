# Craig pricing and order pipeline: verified model

A Dafny 4.11 model of the parts of the Craig print-shop assistant where arithmetic,
state or ordering can go wrong, with proofs over all inputs and all runs.
`dafny verify dfyconfig.toml` checks everything.

Money is counted in whole cents and rounded half-to-even, rates and areas are exact
reals. Objects whose columns the source assigns are classes here; each of their
methods names the columns it may touch and is proved equal to a step function on values,
and the lemmas are about those functions and their runs.

| files | subject |
|---|---|
| `Money`, `Shipping` | rounding, VAT in both directions, re-applied shipping |
| `TierStack`, `TierCost`, `TierOptimality`, `TierMonotone`, `TierCheapest`, `TierCoverage` | billing an off-tier quantity as a stack of tiers, and when that is the smallest or the cheapest bill, or rises with the request |
| `Laydown` | cutting panels from a sheet with bleed and grip margins |
| `PriceEngine`, `PriceLaws`, `PriceStrategies`, `PriceOutcomes` | the three quote entry points and every strategy: what is quoted, when, and at what price |
| `RateLimiter`, `DedupeStore`, `DueDate` | sliding window, bounded duplicate memory, working-day turnaround |
| `StripeForm`, `StripeFormParse`, `StripeFormRoundTrip`, `StripeFormRead` | bracket-notation forms, printed and read back |
| `Catalogue`, `BulkImport`, `ImportPolicies`, `BulkImportSession` | partial-success product import under nested savepoints, row by row and as a whole |
| `QuoteModel`, `QuoteObject`, `QuoteLedgers`, `QuoteSteps` | one quote through approval, payment, PrintLogic and mail |
| `EngagementModel`, `EngagementObject`, `EngagementSafety`, `EngagementSteps` | the approval gate in front of the e-mail channel |
| `DivMod`, `Decimal`, `Wrappers` | arithmetic facts, decimal rendering, `Option` |

## Where the code and its own description part ways

The model follows the code. Each point below is proved, with the exact condition
where there is one.

- *Greedy stacking is naturally cost-optimal* (pricing_engine.py:343-346). Not on
  100 for EUR 38 and 200 for EUR 60: 150 costs EUR 76 stacked, EUR 60 as one 200
  (`GreedyIsNotAlwaysCheapest`), although the stated premise, falling unit prices,
  holds. The shipped booklet ladder has the same gap: 49 booklets cost EUR 76, 50 cost
  EUR 64 (`ShippedBookletsMissASaving`). For any ladder two comparisons per tier decide
  (`CheapestThroughoutIff`): greedy is the cheapest cover throughout exactly when no tier
  is cheaper than one item less stacked below it, nor dearer than the whole pieces of the
  next tier that hold it, less the stack for what they hold beyond it. For one ladder
  alone, requests below its two largest tiers together decide (`FirstRequestsDecide`). On
  a divisibility chain the comparisons are sums over the catalogue (`ChainCheapestIff`),
  and one request is decided by its round-ups (`GreedyCheapestCoverIff`).
- *Asking for more bills no fewer items.* Exactly when one item less than each tier,
  stacked below it, is not billed beyond it (`BilledRisesIff`); with tiers 100 and 250
  it is not so (`BilledQuantityIsNotMonotone`).
- The billed quantity is the least coverable one for all requests exactly when the
  smallest tier divides every tier (`BillsLeastCoverIff`).
- *The sanity ceiling keeps nonsense prices from the customer* (pricing_engine.py:1113-1119).
  It is checked before the client multiplier and the minimum order, which can lift the
  quote above it (`CeilingCanBeExceeded`, exact condition `QuoteWithinCeilingIff`).
- *Retry-After* is truncated: waiting exactly that long is enough iff the oldest entry
  was already older than 59 seconds (`RetryAfterSufficesIff`, `RetryAfterCanBeTooShort`);
  one second more always is.
- *The needs_revision gate guarantees a price before approval* (admin_api.py:1927-1930).
  A status patch to another status, a bulk reject, or the reject of the quote's
  conversation walks around it - nothing else does (`UnpricedLeavesIff`); the unpriced
  quote can then be approved and mailed, though never linked (`UnpricedQuoteCanBeApproved`).
- *The customer is mailed once.* If every accepted send returns an id (`CustomerMailedOnce`);
  a send accepted without one is repeated (`MailIsSentIff`, `MailsWithoutIdRepeat`).
- A paid quote reads "unpaid" again after its link is cancelled and a new one made
  (`PaidCanBeForgotten`, `PaidEndsIff`).
- *Approve sends the reply shown.* Exactly if no parked reply was ever sent before
  (`ShownReplyIsSentIff`): a reply parked after that is pending and on show, and no
  approval ever sends it (`SecondReplyIsStranded`). Nor is the operator mailed about it.
- *Craig writes nothing until Justin clicks Approve.* Whether a webhook posts does not
  depend on the thread being pending (`WebhookPostsIff`): a confident follow-up is
  answered directly.
- The fallback replay keeps no mark of having posted: it posts again on the next approval
  unless the assistant has moved the status on (`FallbackPostsAgainIff`, `FallbackCanPostTwice`).

## Model

| member | source | states |
|---|---|---|
| Money.RoundIsNearest | pricing_engine.py:537-538 | rounding to the cent is within half a cent, nearest among all integers, even on ties, and the identity on whole cents |
| Money.RoundIsMonotone | pricing_engine.py:537-538 | a larger amount never rounds lower |
| Money.NetInvertsGross | pricing_engine.py:872-873 | for every ex-VAT price and rate >= 0, removing VAT from price plus VAT gives the price back exactly |
| Money.RoundsToIff | pricing_engine.py:537-538 | rounding lands on n iff the amount is within half a cent of n, or on a tie with n even |
| Money.NetIsNearest | pricing_engine.py:537-538 | removing VAT divides by one plus the rate, to the nearest cent |
| Money.GrossOfNetWithinOneCent | admin_api.py:2097-2117 | for every inc-VAT price and rate below 200%, removing VAT and adding it again is off by at most one cent |
| Money.GrossOfNetExactIff | admin_api.py:2097-2117 | that round trip is exact iff the netted price, grossed up without rounding, is within half a cent of the given one, a tie decided by parity; equivalently for the prices that are some ex-VAT price plus its VAT |
| Money.GrossOfNetCanMiss | admin_api.py:2097-2117 | 3 cents at 23% is not such a price: the round trip gives 2 |
| Shipping.ShippableQuote.ApplyShipping | pricing_engine.py:490-562 | overwrites the three shipping columns with the charge of this choice alone, and reports charge, free-shipping and applicability |
| Shipping.OnlyLastChoiceCounts | pricing_engine.py:524-562 | after any sequence of applications the row equals that of the last choice alone; total is goods plus artwork plus shipping; a fee means delivery below the threshold |
| Shipping.FeeIsCharged | pricing_engine.py:524-541 | delivery below the threshold is charged the fee to the cent and its net at 23%, any other choice nothing |
| Shipping.ArtworkIncIsGross | pricing_engine.py:556-557 | artwork times 1.23, rounded, equals artwork plus its rounded VAT for every whole-cent amount |
| Shipping.ShippingSplitIsConsistent | pricing_engine.py:536-538 | the stored ex-VAT shipping price grosses up to the charged fee within a cent |
| TierStack.StackTiers | pricing_engine.py:349-440 | the loop terminates; a stack comes out iff there are tiers and the request is at most five times the largest: the smallest tier for small requests, otherwise the greedy pieces, their quantity and their price |
| TierStack.GreedyIsChain | pricing_engine.py:422-436 | the greedy pieces are exactly those of a div/mod chain down the ladder, the last count rounded up |
| TierCost.StackedIsChain | pricing_engine.py:400-440 | every returned stack, the small-request case included, bills and charges the chain's counts |
| TierCost.BilledCoversRequest | pricing_engine.py:422-440 | 0 <= billed - requested < smallest tier |
| TierCost.StackAtTierIsLookup | pricing_engine.py:384-391 | at a catalogue quantity the stack is that single tier at its price |
| TierOptimality.GreedyCheapestForExactTotal | pricing_engine.py:343-346 | on a divisibility chain with falling unit prices no combination with the same total is cheaper |
| TierOptimality.GreedyCheapestIffNoSwap | pricing_engine.py:343-346 | for any ladder, greedy is the cheapest cover of all requests up to a bound iff buying one tier first never saves: combinations of any size reduce to single swaps |
| TierOptimality.GreedyCheapestCoverIff | pricing_engine.py:343-346 | on a chain with falling unit prices, greedy is the cheapest cover of a request iff no tier's round-up of the request is cheaper |
| TierCheapest.CheapestThroughoutIff | pricing_engine.py:343-346 | for any ladder: greedy is the cheapest cover of every request, on the ladder and below each of its tiers, iff no tier is cheaper than one item less stacked below it, nor dearer than the whole pieces of the next tier down that hold it less the stack for what they hold beyond it |
| TierCheapest.FirstRequestsDecide | pricing_engine.py:343-346 | for any ladder alone, greedy is the cheapest cover of every request iff it is for the requests below its two largest tiers together, all of which the engine stacks |
| TierCheapest.ChainCheapestIff | pricing_engine.py:343-346 | on a divisibility chain that is: unit prices fall, and are all equal, or, with single items on sale, no tier is cheaper than (ratio - 1) of each tier below it; requests up to the largest tier decide |
| TierCheapest.ShippedBookletsMissASaving | data/booklets.json:5-11 | on a shipped ladder with falling unit prices 49 booklets cost 76.00 and 50 cost 64.00 |
| TierMonotone.PriceRisesIff | pricing_engine.py:422-440 | for any ladder, asking for more never costs less iff stacking one item less than a tier never costs more than the tier |
| TierMonotone.BilledRisesIff | pricing_engine.py:422-440 | for any ladder, among the requests the engine stacks, asking for more never bills fewer items iff one item less than a tier is never billed beyond it |
| TierCoverage.BillsLeastCoverIff | pricing_engine.py:326-341 | greedy bills the least coverable quantity for every accepted request iff the smallest tier divides all tiers |
| TierCoverage.GreedyIsNotAlwaysCheapest | pricing_engine.py:343-346 | the concrete ladder on which the comment fails |
| TierCoverage.BilledQuantityIsNotMonotone | pricing_engine.py:422-440 | a ladder without that: with 100 and 250, 201 bills 300 and 250 bills 250 |
| Laydown.PlacementRealisesYield | pricing_engine.py:1544-1549 | for all sizes and margins there is an explicit placement of the yield: bleed included inside the grip margins, neighbours 2 x bleed apart, right shape |
| Laydown.GridIsOptimal | pricing_engine.py:300-318 | non-overlapping equally oriented panels, wherever placed, never outnumber the grid |
| Laydown.YieldIsOptimal | pricing_engine.py:1544-1549 | no equally oriented cutting with these margins yields more than the priced yield |
| Laydown.MixedOrientationCanBeatTheGrid | pricing_engine.py:305-307 | the documented limit: a pinwheel of four where the grid yields two |
| Laydown.YieldIgnoresRotation | pricing_engine.py:310-318 | turning the panel or the sheet does not change the yield |
| Laydown.YieldShrinksWithMargins | pricing_engine.py:1544-1549 | growing the bleed or any grip margin never raises the yield |
| Laydown.ZeroMarginsIsPerSheet | pricing_engine.py:1265 | with no margins the laydown yield is the plain per-sheet yield |
| Laydown.SheetsNeededIsLeast | pricing_engine.py:1278 | a number of sheets holds the order iff it is at least the billed number |
| PriceLaws.QuotedIsSound | pricing_engine.py:672-903 | every successful quote, whatever its strategy, passed the guards, adds up to the cent, is at least the minimum order, and its VAT can be undone |
| PriceLaws.FinalExMonotone | pricing_engine.py:854-868 | the final price rises with the base price and, for non-negative bases, with the client multiplier |
| PriceLaws.QuoteMonotoneInMultiplier | pricing_engine.py:129-164 | the multiplier never decides whether a request is quoted, and raising it never lowers the price |
| PriceLaws.NeverNegative | pricing_engine.py:577-604 | without negative catalogue prices and surcharges no strategy prices a job below zero |
| PriceLaws.PerJobIsStacking | pricing_engine.py:1401-1410 | per-job strategies: the direct lookup never changes the price stacking would give |
| PriceLaws.PerBaseIsStacking | pricing_engine.py:723-740 | per-base strategies: the same, line rounding included |
| PriceOutcomes.PerBaseAtTier | pricing_engine.py:723-727 | a price per base items is scaled to the quantity: the subtotal is price x quantity / base to the nearest cent, even on ties |
| PriceOutcomes.PerBasePrice | pricing_engine.py:392-440 | for any quantity: refused without tiers or beyond five times the largest, else the sum over the chain's counts of such lines |
| PriceOutcomes.ShippedCardsAreScaled | data/small_format.json:15-23 | shipped business cards: 500 are 190.00, 2500 are 600.00 |
| PriceOutcomes.GuardsStop | pricing_engine.py:577-630 | manual-review products and quantities out of bounds are never quoted; a person is asked for the former and above the cap only |
| PriceOutcomes.SmallFormatIsQuotedIff | pricing_engine.py:672-868 | small format is quoted iff the ladder reaches the request and the finish is on offer, at the chain's lines, surcharged and settled |
| PriceOutcomes.SurchargesAre | pricing_engine.py:772-850 | double-sided where the product charges for it, soft touch and triplicate each multiply or add under their own rule, in its scope; any other finish is free |
| PriceOutcomes.BookletIsQuotedIff | pricing_engine.py:1946-2020 | booklets are quoted iff the spec's ladder reaches the request, at the chain's tier prices |
| PriceOutcomes.LargeFormatByStrategy | pricing_engine.py:1732-1797 | large format settles what its strategy charges, per unit when it names none |
| PriceOutcomes.PerUnitBills | pricing_engine.py:1798-1840 | by the unit: refused below the minimum, at the bulk price from its threshold on or always without one, else at the unit price |
| PriceOutcomes.PerSheetIsPricedIff | pricing_engine.py:1223-1279 | by the sheet: priced iff dimensions, sheet and price are known and the panel fits one way round |
| PriceOutcomes.CustomSizeIsPricedIff | pricing_engine.py:1530-1597 | a custom board is priced iff it fits the sheet inside margins and bleed and the sheet ladder reaches |
| PriceOutcomes.TieredIsPricedIff | pricing_engine.py:1755-1796 | a standard size goes by its own ladder, given dimensions by the sheet, neither is refused |
| PriceOutcomes.SheetIsFiledAs | pricing_engine.py:1575-1578 | the full-sheet ladder of 2440 by 1220 is the one under "2440x1220" |
| PriceOutcomes.AreaIsKnownIff | pricing_engine.py:958-1044 | an area is unknown iff none is given, no dimensions, no default size, and no yield the product may fall back on |
| PriceOutcomes.SurchargedIsNearest | pricing_engine.py:854-856 | shares multiply the price and flat amounts come on top, to the nearest cent |
| PriceOutcomes.LineIsNearest | pricing_engine.py:1111 | a line is amount times price, to the nearest cent |
| PriceOutcomes.ScaledIsNearest | pricing_engine.py:872-873 | a price times a factor, to the nearest cent |
| PriceOutcomes.PerSqmIsPricedIff | pricing_engine.py:955-1142 | by the area: priced iff an area is known, its price positive and the ceiling kept; anything else needs a person |
| PriceOutcomes.FinalExIsSettled | pricing_engine.py:129-164 | the client multiplier counts within (0, 10] and when visibly not 1; the final price is the larger of the adjusted one and the minimum order |
| PriceOutcomes.QuoteAddsUp | pricing_engine.py:872-903 | VAT to the cent; artwork exactly when asked for with hours, at the hourly rate and 23% |
| PriceStrategies.CustomSizeBillsFewestSheets | pricing_engine.py:1544-1597 | a custom board costs the tier stack for the fewest sheets its panels can physically be cut from, at the best equally oriented yield |
| PriceStrategies.PerSheetBillsFewestSheets | pricing_engine.py:1264-1279 | a per-sheet product costs the fewest sheets at the best plain yield |
| PriceStrategies.PerSqmBillsArea | pricing_engine.py:962-1111 | per-area jobs bill the area asked for (as given, from item size, default size or yield, to four places) or the minimum area if larger, at the bulk price exactly from its threshold on; never by yield when dimensions are required |
| PriceStrategies.PerSqmBelowCeiling | pricing_engine.py:1113-1140 | the subtotal of a per-area quote, before multiplier and minimum order, never exceeds the sanity ceiling per unit |
| PriceStrategies.QuoteWithinCeilingIff | pricing_engine.py:1113-1156 | the quoted price stays within the ceiling iff neither a client multiplier above one nor the minimum order lifts it above |
| PriceStrategies.CeilingCanBeExceeded | pricing_engine.py:1113-1156 | one small label: 0.20 by area, ceiling 5, quoted at the minimum order of 45 |
| PriceStrategies.SurchargeOrderIsIrrelevant | pricing_engine.py:772-793 | two surcharges give the same factors in either order |
| RateLimiter.Limiter.Check | rate_limiter.py:81-98 | admits iff the full admission history has fewer than the limit in the last 60 s, remembers exactly the admissions, touches no other key |
| RateLimiter.PopAged | rate_limiter.py:87-88 | the pruned deque is exactly the window of the full history |
| RateLimiter.PruningIsHarmless | rate_limiter.py:86-88 | forgetting aged entries changes no later window |
| RateLimiter.AdmissionsSpanWindow | rate_limiter.py:72-74 | any limit + 1 consecutive admissions of a key span more than 60 s |
| RateLimiter.AdmissionsSnoc | rate_limiter.py:89-98 | one more request of a key is admitted iff fewer than the limit were in the last 60 s |
| RateLimiter.RetryAfterInRange | rate_limiter.py:91-92 | Retry-After is between 1 and 60 |
| RateLimiter.RetryAdmittedIff | rate_limiter.py:87-98 | after a refusal, without other traffic, a retry is admitted iff the oldest entry has aged out |
| RateLimiter.OneSecondMoreIsEnough | rate_limiter.py:91-98 | waiting one second beyond Retry-After is always enough |
| RateLimiter.RetryAfterSufficesIff | rate_limiter.py:91-98 | waiting exactly Retry-After is enough iff the oldest entry was older than 59 s at the refusal |
| RateLimiter.RetryAfterCanBeTooShort | rate_limiter.py:91-92 | an input where it is not: 59 s promised, 59.5 s left |
| DedupeStore.DraftedMessages.MarkDrafted | app.py:541-553 | set and list hold exactly the newest 1024 accepted keys, without duplicates; a delivery is refused iff its key is among them |
| DedupeStore.RepeatsAreFarApart | app.py:523-531 | two acceptances of one key are more than 1024 acceptances apart |
| DedupeStore.RetriesAreDropped | app.py:523-531 | a retry is dropped while fewer than 1024 other messages were accepted since |
| DedupeStore.AcceptedSnoc | app.py:541-553 | one more delivery is accepted iff its key is not among the newest accepted |
| DueDate.DueOn | printlogic_payload.py:244-256 | the loop stops on the earliest date with exactly n working days after the start, itself a working day, equal to the closed form |
| DueDate.DueDateIsClosedForm | printlogic_payload.py:250-255 | a date is the due date iff it equals whole weeks plus remainder |
| StripeForm.Form.Flatten | stripe_client.py:67-86 | writes into the shared dict exactly the fields of the value, in order |
| StripeForm.EncodeForm | stripe_client.py:89-93 | the flat map is that of all parameters |
| StripeForm.LeavesPrintAs | stripe_client.py:79-86 | None prints nothing, booleans "true" and "false", text itself |
| StripeFormParse.FlatIsRendered | stripe_client.py:73-86 | the fields are exactly the leaves, each under the rendering of its path |
| StripeFormParse.SplitKeyInverts | stripe_client.py:75-78 | a rendered key of bracket-free segments determines its path |
| StripeFormRoundTrip.NoKeyWrittenTwice | stripe_client.py:67-93 | bracket-free keys: no form key is written twice |
| StripeFormRoundTrip.EveryLeafSurvives | stripe_client.py:89-93 | so every leaf is in the encoded form under its own key |
| StripeFormRoundTrip.BracketedKeysCollide | stripe_client.py:75 | with a bracket in a key two leaves can share a form key |
| StripeFormRead.ReadInvertsPrint | stripe_client.py:67-93 | non-numeric nested keys: reading the form back rebuilds the tree minus Nones and empty containers, leaves as text |
| StripeFormRead.NumericKeysAreAmbiguous | stripe_client.py:75-78 | with a numeric key a dict and a list print the same form |
| Catalogue.ReplaceTouchesOneProduct | admin_api.py:966-1011 | an update keeps the id, keeps columns of blank cells, makes the tiers the row's, and touches no other product |
| Catalogue.CreateTouchesOneProduct | admin_api.py:1011-1061 | a creation adds one product with exactly the row's tiers |
| BulkImportSession.BulkImportProducts | admin_api.py:809-1083 | under nested unreleased savepoints the report and the committed database are those of the plain row-by-row run; a dry run commits nothing |
| BulkImportSession.ImportRow | admin_api.py:937-1070 | one row in its savepoint has the effect of its plain step, half-written failures undone, one savepoint left open per written row |
| BulkImportSession.RunPreflight | admin_api.py:836-875 | the two preflight passes report nameless rows, then every row of every duplicate group |
| BulkImportSession.EnsureCategories | admin_api.py:877-906 | missing categories of all rows are created once, first spelling wins |
| BulkImport.ImportIsFoldOfOkRows | admin_api.py:908-1070 | the result is the categories plus the rows reported ok applied one by one; failed rows leave no trace |
| BulkImport.ImportKeepsSound | db/models.py:177-310 | (org, key), ids, (product, spec, quantity) and category (org, slug) stay unique through every batch |
| BulkImport.EveryRowReportedOnce | admin_api.py:908-1070 | every submitted row appears exactly once in ok or failed |
| BulkImport.SummaryMatchesLists | admin_api.py:831-832 | the counters are the lengths of the lists and add up to the batch |
| BulkImport.RerunUnderSkipChangesNothing | admin_api.py:947-956 | re-running a batch under "skip" changes the catalogue iff some sound row of a product that did not exist was refused by the database in the first run and is not refused again |
| ImportPolicies.ExistingKeyUnderSkip | admin_api.py:947-956 | a sound row for an existing key is reported skipped; product and tiers stay |
| ImportPolicies.ExistingKeyUnderFail | admin_api.py:957-965 | under "fail" it is reported KeyExists; product and tiers stay |
| ImportPolicies.ExistingKeyUnderUpdate | admin_api.py:966-1011 | under "update" it is reported updated and the product carries its category, merged fields and exactly its tiers, unless its own tiers or the database refuse the write, which leaves no trace |
| ImportPolicies.NewKeyIsCreated | admin_api.py:1011-1070 | a sound row for a new key is created under any policy with its columns and tiers, unless its own tiers or the database refuse the write |
| ImportPolicies.RefusedRowIsReported | admin_api.py:914-936 | a row whose strategy lacks a column it prices by, or without a category, is reported so |
| ImportPolicies.PreflightIsReported | admin_api.py:836-875 | a nameless row, and every row of a repeated key, is reported so |
| ImportPolicies.SkipAndFailKeepProducts | admin_api.py:947-965 | over a whole batch, "skip" and "fail" change no product that existed, nor its tiers |
| ImportPolicies.OtherProductsUndisturbed | admin_api.py:908-1070 | a product no row names is left exactly as it was |
| ImportPolicies.CategoriesOfImport | admin_api.py:877-906 | every category named exists afterwards, old ones first and unchanged, new ones under their first spelling |
| QuoteObject.Quote.CreateLink | stripe_push.py:89-205 | creates a link only when ready, unlinked and positive, and stores it as unpaid |
| QuoteObject.Quote.CancelLink | admin_api.py:3608-3649 | a confirmed cancellation clears id and url together and forgets only "unpaid" |
| QuoteObject.Quote.ApplyEvent | stripe_push.py:261-281 | moves the payment status, a paid one only by a refund; touches no other column |
| QuoteObject.Quote.PushOrder | printlogic_push.py:62-167 | counts each create call, never replaces a real id, promotes a dry one |
| QuoteObject.Quote.CancelOrder | admin_api.py:3020-3052 | clears a dry id locally and a real one on confirmation |
| QuoteObject.Quote.SendDraft | missive_outbound.py:246-382 | mails only without a held draft id |
| QuoteObject.Quote.TriggerNotification | notifications.py:370-431 | mails the operator once until the flag is cleared |
| QuoteObject.Quote.UpdateStatus | admin_api.py:1894-2034 | refuses needs_revision to approved, otherwise sets the status and fires link then mail on the first approval |
| QuoteObject.Quote.BulkApproveOne | admin_api.py:2286-2344 | the same transition in the bulk endpoint |
| QuoteObject.Quote.SaveManualPrice | admin_api.py:2053-2166 | prices a needs_revision quote, clears the notification flag and notifies |
| QuoteObject.Quote.RejectWithEngagement | admin_api.py:2842-2861 | rejecting the conversation rejects the quote while it waits for the operator |
| QuoteObject.Quote.MarkSuperseded | llm/craig_agent.py:537-561 | a newer quote supersedes a pending one only |
| QuoteLedgers.LedgersAfterRun | stripe_push.py:134-196 | in every run: links made minus cancelled is 1 iff one is held, which is the newest, every amount positive; the same for real PrintLogic orders; attempts equal calls; mails with an id are exactly the held draft |
| QuoteLedgers.MailBounds | missive_outbound.py:294-373 | from a fresh quote the customer mails with an id are exactly the held draft, so at most one, and operator mails at most one more than manual saves |
| QuoteLedgers.MailIsSentIff | missive_outbound.py:294-373 | a customer mail goes out iff a quote neither approved nor needing revision is approved, the service and address are there, no draft id is held, and the send is accepted |
| QuoteLedgers.CustomerMailedOnce | missive_outbound.py:294-373 | in every run from a fresh quote all mails but the last came back without an id; so at most one, if every accepted send returns an id |
| QuoteLedgers.MailsWithoutIdRepeat | missive_outbound.py:358-373 | a run with two: a send accepted without an id is repeated on re-approval |
| QuoteLedgers.ApprovedAtIsWriteOnce | admin_api.py:1946-1948 | approved_at never changes once set |
| QuoteLedgers.RealOrderIsNeverReplaced | printlogic_push.py:90-99 | a real order id is only given up by a confirmed cancellation; a push leaves it alone |
| QuoteSteps.OrderIsMadeIff | printlogic_push.py:62-167 | a real order is logged iff a push with the key and no dry run finds no real id and PrintLogic confirms; it is the id the row then holds, a dry one replaced; calls and attempts are counted exactly |
| QuoteSteps.OrderIsCancelledIff | printlogic_push.py:194-222 | an id is given up iff cancelled, a real one with key and confirmation |
| QuoteSteps.PushedOnce | printlogic_push.py:90-99 | in every run after a confirmed push, further pushes are no-ops until a confirmed cancellation |
| QuoteLedgers.LinkIsMadeIff | stripe_push.py:134-196 | a link is confirmed iff link creation or a fresh approval finds Stripe ready, no complete link, a positive amount, and Stripe agrees; it is for that amount and reads unpaid |
| QuoteLedgers.PaidEndsIff | stripe_push.py:174-179 | a step ends "paid" iff it is a refund, or those guards make a new link |
| QuoteSteps.PaidBeginsIff | stripe_push.py:262-275 | a quote becomes paid iff a payment event arrives, at its time |
| QuoteSteps.EventsReadAs | stripe_push.py:262-275 | a failure reads failed unless paid, a refund refunded, any other event nothing |
| QuoteSteps.PaidHadAPayment | stripe_push.py:174-179 | in every run, a paid quote had a payment event after its newest link |
| QuoteSteps.LinkIsCancelledIff | admin_api.py:3608-3649 | a link is given up iff a cancel is confirmed; only "unpaid" is forgotten with it |
| QuoteLedgers.PaidIsSticky | stripe_push.py:269-275 | while the link is kept no outcome is forgotten, and without refunds paid stays paid with its time |
| QuoteLedgers.PaidCanBeForgotten | stripe_push.py:178 | cancel the link and make another: "unpaid" |
| QuoteLedgers.RepeatedEventIsHarmless | stripe_push.py:262-281 | an event applied twice leaves the same payment status |
| QuoteLedgers.UnpricedLeavesIff | admin_api.py:1927-1939 | an unpriced quote leaves needs_revision unpriced exactly by a patch to another status than approved, a bulk reject, or the reject of its conversation |
| QuoteLedgers.ApprovedImpliesPriced | admin_api.py:1927-1939 | in every run without such a step an approved quote has a price |
| QuoteLedgers.UnpricedQuoteCanBeApproved | admin_api.py:1927-1939 | after any such step it can be approved and mailed unpriced, never linked |
| QuoteLedgers.ManualPriceSplits | admin_api.py:2092-2137 | a manual price splits to the cent and its derived net grosses up within a cent |
| QuoteSteps.OperatorIsMailedIff | notifications.py:388-431 | the operator is mailed iff a trigger finds the quote unannounced, or a price is saved on one that needs it, and the send works |
| QuoteSteps.PatchStoresStatus | admin_api.py:1927-1941 | a patch stores the status it names, except approving from needs_revision |
| QuoteSteps.OtherStatusChanges | admin_api.py:2286-2347 | the other commands change a status exactly where they approve, reject, price or supersede |
| QuoteSteps.ApprovalIsDated | admin_api.py:1946-1948 | the first approval is dated, in either endpoint |
| QuoteSteps.ManualPriceIsStoredIff | admin_api.py:2092-2137 | a typed price is stored iff the quote needs revision, with the given or derived net |
| QuoteSteps.EachColumnHasItsCommands | admin_api.py:1894-2034 | prices, payment, link, order and draft columns move only by the commands they belong to |
| QuoteSteps.RepriceStores | pricing_engine.py:559-562 | a new price with VAT and total is stored, and nothing else |
| QuoteSteps.DryIds | printlogic_push.py:90-99 | a dry-run id is one that begins with DRY- |
| QuoteSteps.RunIsStepwise | admin_api.py:1894-2034 | a run is its commands one after the other |
| EngagementObject.Conversation.Receive | app.py:948-1519 | the webhook's three tiers: drop, park and tell the operator, or post |
| EngagementObject.Conversation.Approve | admin_api.py:2732-2795 | refused outside pending or approved, nothing after a posted draft, otherwise the replay |
| EngagementObject.Conversation.Replay | admin_api.py:2437-2728 | posts the cached reply and marks it, or falls back to a new assistant run |
| EngagementObject.Conversation.Reject | admin_api.py:2803-2864 | rejects the conversation and every waiting quote of it |
| EngagementObject.Conversation.TriggerEngagementMail | notifications.py:1233-1301 | nothing once the conversation is marked; otherwise at most one mail, and a sent one marks it |
| EngagementSafety.GateHoldsOverRuns | app.py:948-1024 | in every run of a new thread each post was a confident positive verdict, or made by approving a pending or approved thread: the newest parked reply, or a new one when the newest was absent or empty; a cached reply goes out at most once; at most one engagement mail |
| EngagementSafety.WebhookPostsIff | app.py:966-1024 | a webhook posts iff the verdict is true, confidence clears 0.2 and the threshold, the thread is not rejected, and a reply and the service are there |
| EngagementSteps.WebhookParksIff | app.py:999-1024 | a reply is parked iff the mail reaches the assistant and confidence is low or a thread already answered gets no quote request; the operator is mailed unless told before |
| EngagementSteps.WebhookRecordsChat | app.py:1442-1519 | a mail that reaches the assistant leaves its turns, quotes and, unless parked, status |
| EngagementSteps.TurnsAreTheNewest | app.py:919-925 | in every run of a new thread the recorded turns are those of the assistant's newest run |
| EngagementSteps.AnsweredThreadIsNeverDropped | app.py:999-1024 | once a webhook has posted a reply, in every continuation a confident non-quote is parked, not dropped |
| EngagementSafety.RejectedStaysSilent | app.py:955-963 | once rejected, no run posts, parks, mails or changes the status |
| EngagementSafety.RejectClearsQueue | admin_api.py:2837-2861 | after a reject no quote of the conversation, nor the proposed one, waits; other quotes are untouched |
| EngagementSafety.RejectedQueueStaysClear | admin_api.py:2837-2861 | and no later run of webhooks, approvals and rejects changes any quote of it |
| EngagementSafety.ApprovePostsIff | admin_api.py:2495-2637 | an approval ships the parked reply iff the thread is pending or approved, no reply was shipped before, a usable one is parked, and the service accepts; it posts at most one draft |
| EngagementSafety.ApproveReplaysIff | admin_api.py:2640-2728 | it posts a newly written reply iff nothing usable is parked and the assistant answers the old mail |
| EngagementSteps.ApprovalIsRecorded | admin_api.py:2753-2795 | an approval acts iff the thread is open for it and nothing was shipped; it is dated once, approves, marks a shipped reply, and records the assistant only if it ran |
| EngagementSteps.RejectTakesEffectIff | admin_api.py:2823-2864 | a reject takes effect iff the thread is pending or rejected, and moves only status, its date and the waiting quotes |
| EngagementSafety.ShownReplyIsSentIff | admin_api.py:2758-2777 | in every run, approving a usable parked reply sends it iff no parked reply was ever sent |
| EngagementSafety.NothingIsApprovedTwice | admin_api.py:2758-2777 | after a posted cached reply every later approval is a no-op, whatever was parked since |
| EngagementSafety.SecondReplyIsStranded | admin_api.py:2758-2777 | park, approve, park again: the second reply is pending and on show, and no continuation ever sends it |
| EngagementSafety.ConfidentNonQuote | app.py:985-1024 | a confident non-quote is dropped on a fresh thread and parked on an engaged one |
| EngagementSafety.FallbackPostsAgainIff | admin_api.py:2710-2728 | after a fallback post another approval posts again iff the assistant left the status alone |
| EngagementSafety.FallbackCanPostTwice | admin_api.py:2710-2728 | two approvals on the fallback path post twice |

## Left out

- Binary floating point: amounts are cents and exact reals, so representation error of Python floats is not modelled; `price * qty / base` and `price * (qty / base)` coincide here.
- Tier prices are whole cents, tier quantities positive and `price_per` names at least one item, as the catalogue endpoints and seeds have them.
- The text lines a quote carries (surcharge labels, notes, turnaround, escalation messages): only prices and the manual-review flag are kept.
- Dimensions are non-negative integers; parsing of size strings, category and key slugs, finish names and settings is done before the model starts.
- VAT-rate lookup by category: the resolved rate is a parameter.
- `PriceEngine.Quote` folds the repeated tail of the strategies (multiplier, floor, VAT, artwork) into one function, since all copies agree.
- Threads in the limiter: the handler has no await and holds a lock, so its calls are sequential.
- In the limiter the client address is a parameter; a limit of zero, which makes the source index an empty deque, is excluded.
- Bulk import: the columns other than key, category and tiers are one field map, so column defaults and the list of updatable columns are not spelled out; a row failing the strategy check is reported under its derived key.
- In the import, any other database refusal is an arbitrary set of rows; ids come from a sequence that rollbacks do not rewind.
- Surcharge sheet import, which shares the import pattern, deletes of quotes and conversations, and tenant scoping.
- Quote handlers are atomic and commits succeed; last-error columns, `approved_by`, customer ids and audit lines are not kept.
- Ids from Stripe, PrintLogic and Missive carry no surrounding blanks, and real PrintLogic ids do not start with "DRY-".
- In the engagement gate there is one conversation row per thread; the spam prefilter, self-mail filter and empty bodies are one `junk` input, the assistant's turn and the classifier are arbitrary inputs, and attachments, labels and subjects are dropped.
- Webhook signature checking, OAuth, secrets, PDF and mail rendering, attribution, dashboards and the widget.
