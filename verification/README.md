# A verified model of the catalog

This project models the logic of the ProZorro catalog (`src/catalog` and `src/cron`) in Dafny and proves what that
logic is meant to guarantee. `dafny verify dfyconfig.toml` checks all of it. One module per file, named alike.

**Prices** (`Sorting`, `Quartiles`, `Prices`, `PriceRuns`, `PriceEngine`). `PriceOn` and `FullTable` define, straight
from all stored bids, the price of a product on a day and its whole table. The engine never computes it that way: it
fetches bids from seven days before the last stored price on, slides a window over the days found and appends rows,
batch of products by batch of products, selected by a global watermark. The proofs say when that is the same thing.
The watermark needs three assumptions the code does not check: bids fall on days after the last priced day of all
products, no product fails, and a run sees no bids of its own day. Without the first later runs leave a bid out for good
(`LateBidIsNotPriced`); without the second (`FailureHidesABid`) and the third (`UnfinishedDayHidesABid`, the per-product
query having no end date) a product can be left without its price until it gets a bid beyond the watermark.
`RunIsExactAfterAnyHistory` needs none of them and says exactly which products a run leaves complete.

**Documents under optimistic locking** (`Store`, `Reviews`, `Bans`). Any number of clients read, run a handler and
commit in any order, while crons write with `$set` and leave the revision alone. The history of every document is a
chain; an invariant of each handler is one of all interleavings (`LiftInvariant`). On top of this sit the review of
product requests and the bans of contributors and vendors. Where the protection ends is stated too: a cron write can be
overwritten, a client without a revision overwrites others, and the vendor cron, whose scan and write are two steps, can
make a banned vendor active (`LateLiftHappens`): exactly if a write meets a vendor that is not activated or has an
unexpired ban (`WriteKeepsInvExactly`).

**Document versions and revision history** (`Documents`, `Revisions`). The list of document versions refines a map from
ids to histories. Recorded revisions are JSON patches (section 4 of RFC 6902) from the new state to the old one; popping
them rebuilds every earlier state.

**Requirements** (`Requirements`, `Criteria`, `Refinement`, `ProductCheck`, `ProfileMatching`, `RelatedProfiles`). The
strict check of responses at write time, the looser one of the cron, the check of a profile against its category, and
the validators of the models. Values compare and hash as in Python: `True == 1 == 1.0`, and comparing a string with a
number raises (the verdict `Crashed`). Refinement holds for lists of values unless the profile drops or changes the
pattern of the category, which is not checked (`PatternsDecide`); for whole responses it also fails for one kind of
date-time requirement (`ResponsesRefineForAllPatterns`). The cron accepts what the strict check
accepts unless bounds are texts or values are given twice (`StrictAndLooseAgree`), and it is monotone except that adding
expected values can let foreign values in (`TighteningShrinks`).

**Feed** (`Ordering`, `Pagination`, `Feed`). Pages by `dateModified`, what following the links delivers, and a crawler
among writers. It misses nothing as long as documents are stored under dates beyond its offset. The code does not
guarantee that: handlers stamp a document before they store it, and one stored late under an early stamp is missed until
it is written anew (`EarlyStampIsMissed`).

**Criteria trees and their migration** (`CriteriaTree`, `ConcurrentEditing`, `ProfileEditing`, `CategoryEditing`,
`Migration`, `MigrationRun`). Edits of criteria, groups and requirements; the rewriting of requirements into a standard
form. Patching a classification can break the rule of one group per criterion (`OneGroupCanBreak`). A profile stays
within its category under all edits of both but a patch of a category requirement, which is not checked against the
profiles (`ArchivingHappens`). A boolean requirement of one shape needs two runs of the migration (`TwoRunsHappen`); the
models refuse it, so only data stored before their validators can have it.

The source changes its objects step by step, so the handlers and loops are methods, many of them of classes whose fields
are the stored objects, and their contracts tie the new state to a function; the properties are lemmas about these
functions. Ids, uuids, the current time and the identity of the requester are parameters.

## Model

| member | source | states |
|---|---|---|
| Sorting.Sort | src/catalog/prices.py:83 | The amounts of a window in ascending order: a sorted permutation |
| Quartiles.OrderedAndBounded | src/catalog/prices.py:83-93 | For every non-empty window lower <= median <= upper, and all three respect any bounds of the amounts, so non-negative amounts give non-negative quartiles |
| Quartiles.BetweenTheExtremes | src/catalog/models/price.py:56-70 | The quartiles lie between the smallest and the largest amount, both of which are amounts of the window |
| Quartiles.SplitsTheSample | src/catalog/prices.py:92-93 | From three amounts on, at least j of the n amounts are at most quartile i and at least n - j are at least quartile i, j being the rank the exclusive method assigns |
| Quartiles.CutPointsAscend | src/catalog/prices.py:92-93 | Neighbouring cut points of the exclusive method never cross, clamping included |
| Quartiles.OrderIndependent | src/catalog/prices.py:83-93 | The order in which the bids come has no influence on the quartiles |
| Quartiles.Monotone | src/catalog/prices.py:83-93 | Raising any of the amounts never lowers any quartile |
| Quartiles.TwoSamplesExtrapolate | src/catalog/prices.py:88-91 | Why two amounts are a case of their own: the general formula leaves the sample exactly if they differ |
| Prices.FoundBids | src/catalog/db.py:642-655 | The per-product query returns the matching bids, no more and no fewer, in date order |
| Prices.PriceMeans | src/catalog/prices.py:76-117 | The price of a day counts all stored matching bids of the seven days that end with it and has the quartiles of their amounts, in whatever order they are stored |
| Prices.PriceIsDated | src/catalog/prices.py:100-110 | A price is dated the last moment of its day with a matching bid |
| Prices.PriceIsNamed | src/catalog/prices.py:95-98 | The unit name of a price is that of an earliest bid of its window |
| Prices.DaysOfProduct | src/catalog/prices.py:60-65 | The days to price: ascending, without repetition, exactly those with a matching bid |
| PriceEngine.FetchedPrice | src/catalog/prices.py:51-101 | Reaching back seven days is enough: for every day still to be priced, the price made from the fetched bids is the one made from all stored bids |
| PriceEngine.FetchedDays | src/catalog/prices.py:55-68 | The days beyond the last priced one among the fetched bids are those among all stored bids |
| PriceEngine.PriceDay | src/catalog/prices.py:76-117 | The body of the day loop, with its three cases of sample size, makes the price the fetched bids determine |
| PriceEngine.PriceBase.InsertPrices | src/catalog/prices.py:75-124 | The day loop appends the rows in the order of the days; if it dies after k inserts, exactly the first k are stored |
| PriceEngine.PriceBase.CalculatePriceForProduct | src/catalog/prices.py:22-127 | Appends exactly the missing rows of the product's table, none if product, category or unit is missing, and returns how many |
| PriceEngine.PriceBase.RunBatch | src/catalog/prices.py:143-149 | Runs the products of a batch one after the other; one that fails does not stop the others |
| PriceEngine.NextBatch | src/catalog/db.py:623-639 | Skip and limit cut the selected products into successive stretches, and a short one is the last |
| PriceEngine.PriceBase.CalculatePrice | src/catalog/prices.py:130-154 | The batching loop ends and runs, one after the other, the products of its batches, the end date being taken anew for each batch |
| PriceEngine.VisitedIsSelected | src/catalog/prices.py:137-153 | A run that sees no bids of its own day goes through exactly the selected products, each once, whatever the batch size and the times of its batches |
| PriceEngine.VisitedOnOneDay | src/catalog/prices.py:137-153 | The same for any run that does not cross midnight, bids of its own day or not |
| PriceEngine.NobodyIsPassedOver | src/catalog/prices.py:139-153 | When midnight passes between batches and more products are selected, nobody who was still to come is skipped |
| PriceEngine.PriceBase.FullRecalculation | src/catalog/prices.py:157-161 | Clears the prices and runs the products of all batches from no watermark on |
| PriceEngine.SelectedMembers | src/catalog/db.py:623-639 | A product is selected exactly if it has a bid from the watermark on and before the end date |
| PriceEngine.RunAllTables | src/catalog/prices.py:143-149 | In the table of each product a run shows once if the product was selected and not at all otherwise; products do not disturb each other |
| PriceRuns.LastIsGreatest | src/catalog/db.py:541-561 | The last price is a stored one and no stored price is dated after it |
| PriceRuns.RunAddsTheRest | src/catalog/prices.py:45-124 | From any sound table, a prefix of the full one, a run adds exactly the missing rows |
| PriceRuns.RunCompletes | src/catalog/prices.py:45-124 | A run that is not cut off ends with the full table if and only if it started from a sound one |
| PriceRuns.FullExactly | src/catalog/prices.py:67-71 | A sound table is full if and only if no matching bid falls after its last priced day |
| PriceRuns.RunStaysSound | src/catalog/prices.py:75-124 | A run cut off after any number of inserts leaves a sound table |
| PriceRuns.SoundExactly | src/catalog/prices.py:45-124 | In any history of arrivals and runs, each cut off anywhere, the table is the full recalculation restricted to a prefix of its days, no day twice and none skipped, if and only if no matching bid ever arrives with a day on or before the last priced one |
| PriceRuns.IncrementalEqualsFull | src/catalog/prices.py:45-124 | After any history from nothing, one completed run gives what a single run from the empty table gives, which is the full table, if and only if no bid came late |
| PriceRuns.ResumingIsExact | src/catalog/prices.py:67-68 | From a sound table, resuming after a batch of bids agrees with recalculating everything if and only if no matching bid of the batch falls on or before the last priced day |
| PriceEngine.EngineStaysSound | src/catalog/prices.py:130-154 | Safety under timely bids, products failing or not: no table ever holds anything but a prefix of its full recalculation |
| PriceEngine.EngineSoundExactly | src/catalog/prices.py:130-154 | For each product, that is so if and only if none of its bids ever arrives with a day on or before its own last priced one |
| PriceEngine.WatermarkInvariant | src/catalog/prices.py:130-154 | Whatever the table of a product lacks, some bid of it lies at or after the watermark; kept by every arrival and every run |
| PriceEngine.WatermarkLosesNothing | src/catalog/prices.py:130-154 | After any history that meets the three assumptions, a run leaves every product with its full table although it selects by the watermark |
| PriceEngine.FullRecalculationIsFull | src/catalog/prices.py:157-161 | A full recalculation gives every product its full table if all bids are dated before its day |
| PriceEngine.RunIsExactAfterAnyHistory | src/catalog/prices.py:130-154 | After any history whatever, a run leaves a product with its full table if and only if no bid of the product came late, and it has a bid from the watermark on and before today or no matching bid after its last priced day |
| PriceEngine.LateBidIsNotPriced | src/catalog/prices.py:67-68 | Why bids must not come late: a history in which nothing else goes wrong and a bid of an earlier day is never priced |
| PriceEngine.UnfinishedDayHidesABid | src/catalog/prices.py:55 | The second assumption is needed: a history in which a run sees bids of its own day and the next run misses a product |
| PriceEngine.FailureHidesABid | src/catalog/prices.py:147-148 | So is the other one: a product fails, another takes the watermark past its bid, and the next run, in which nothing fails, misses it |
| Store.Collection.InsertObject | src/catalog/db.py:255-268 | Stores the document under the first revision, or refuses a duplicate id and changes nothing |
| Store.Collection.ReadObject | src/catalog/db.py:309-318 | Returns the stored document with its revision, or not found |
| Store.Collection.UpdateObject | src/catalog/db.py:271-286 | Replaces the document under the next revision if the revision read is still the stored one; on a conflict nothing is written |
| Store.NoLostUpdates | src/catalog/db.py:271-286 | In every interleaving, each committed state is its handler applied to an earlier state of the document with nothing but cron writes in between, and its revision number is one higher |
| Store.NoLostUpdatesAmongClients | src/catalog/utils.py:209-222 | Without cron writes the history of every stored document is a chain: state k is a handler applied to state k - 1, and the revision numbers run 2, 3, 4, ... |
| Store.CommitIsCurrent | src/catalog/db.py:331-336 | A commit that goes through works on the document as it stands, if no cron has written it since it was read |
| Store.CronWriteIsOverwritten | src/cron/inactivate_products_task.py:36-43 | The boundary: a client that read before a cron's write commits over it, and the store ends as if the cron had never run |
| Store.CronWriteHappens | src/cron/inactivate_products_task.py:36-43 | A run from the empty store in which nothing is left of a cron's write |
| Store.RevlessReaderOverwrites | src/catalog/db.py:276-279 | The boundary: a client that read a document without a revision overwrites what others have committed meanwhile |
| Store.RevlessOverwriteHappens | src/catalog/db.py:276-279 | A run of two clients on a document without a revision in which the update of the first is lost |
| Store.LiftInvariant | src/catalog/db.py:331-336 | A property that each handler and cron write keeps, and time does not end, holds of all documents in every interleaving, stale copies included |
| Reviews.PostAcception | src/catalog/handlers/crowd_sourcing/product_request.py:131-151 | Accepting: refused, or the request is stored as accepted under the new product id and the product inserted under that id |
| Reviews.PostRejection | src/catalog/handlers/crowd_sourcing/product_request.py:184-199 | Rejecting: refused and nothing changed, or the request is stored as rejected |
| Reviews.CommitIsTheFirstReview | src/catalog/validations.py:267-284 | A review that commits is the first one of the request as it stands, made from the state in which it was submitted |
| Reviews.SingleReview | src/catalog/handlers/crowd_sourcing/product_request.py:130-199 | In every interleaving a request is reviewed at most once and never both accepted and rejected; at most one product comes from it, and only if it is accepted, under the id it stores |
| Bans.ValidateBanIsNew | src/catalog/validations.py:272-277 | Lets a ban through exactly if the contributor has no unexpired ban of the same administrator; bans without a due date never expire |
| Bans.ContributorRecord.Post | src/catalog/handlers/base_ban.py:39-49 | Appends the ban to the contributor, or refuses and changes nothing |
| Bans.ContributorBansAreUnique | src/catalog/handlers/crowd_sourcing/contributor_ban.py:35-38 | In every interleaving of API calls, at every moment, a contributor has at most one unexpired ban per administrator |
| Bans.ValidateActiveVendor | src/catalog/validations.py:31-36 | Lets a vendor through exactly if it is activated and has no unexpired ban |
| Bans.ScanBannedVendors | src/cron/activate_banned_vendors.py:30-47 | The scan collects, in cursor order, the banned vendors all of whose bans have expired |
| Bans.WriteLifts | src/cron/activate_banned_vendors.py:49-50 | The write makes the vendors collected active, whatever has become of them since |
| Bans.VendorRecord.Patch | src/catalog/state/vendor.py:25-39 | Activation sets status and date only if it made a difference, and is refused if the identifier is taken |
| Bans.VendorRecord.Post | src/catalog/state/vendor_ban.py:8-12 | A ban is appended and the vendor's status set to banned, or the vendor stays as it is |
| Bans.ActivateBannedVendors | src/cron/activate_banned_vendors.py:25-57 | The whole task, undisturbed: exactly the banned vendors without an unexpired ban end active, all revisions stay, and the task returns how many it has lifted |
| Bans.VendorsAreConsistent | src/catalog/state/vendor.py:25-39 | In every interleaving of API calls with the scan and the write of the cron: a vendor is pending if and only if not activated, has at most one unexpired ban, and is banned while it has one, as long as every write of the cron meets its vendor activated and without an unexpired ban |
| Bans.LateLiftUnbans | src/cron/activate_banned_vendors.py:30-50 | Any vendor the cron has picked can be banned before it writes, and then ends active with an unexpired ban |
| Bans.LateLiftExactly | src/cron/activate_banned_vendors.py:42-44 | A late write keeps a consistent vendor consistent if and only if it is activated and has no unexpired ban at that moment |
| Bans.WriteKeepsInvExactly | src/cron/activate_banned_vendors.py:49-50 | The same for the whole store, with clients at work: exactly which writes of the cron keep the invariant |
| Bans.PromptLiftIsOneStep | src/cron/activate_banned_vendors.py:30-50 | A scan and a write with nothing in between are one step that lifts the bans |
| Bans.PromptRunsAreHarmless | src/cron/activate_banned_vendors.py:30-50 | Runs in which the cron only takes that step need no assumption |
| Bans.LateLiftHappens | src/cron/activate_banned_vendors.py:30-50 | A run of thirteen actions from the empty store that ends with a vendor active and banned |
| Documents.DocumentList.Post | src/catalog/handlers/base_document.py:40-47 | Appends the version with both dates set |
| Documents.DocumentList.Put | src/catalog/handlers/base_document.py:78-95 | Appends a new version under the id if the id is known, else changes nothing |
| Documents.DocumentList.Patch | src/catalog/handlers/base_document.py:108-123 | Edits the latest version of the id in place; dates change only if the edit made a difference |
| Documents.DocumentList.Find | src/catalog/handlers/base_document.py:86-94 | The backwards search of put and patch finds the last entry with the id |
| Documents.DocumentList.Get | src/catalog/handlers/base_document.py:61-74 | The backwards search of get finds the last version, or the last one with the file asked for |
| Documents.ListRefinesMap | src/catalog/handlers/base_document.py:37-130 | Over any run of post, put and patch the list holds for every id exactly the versions a map from ids to histories holds, in order |
| Documents.LookupIsLastVersion | src/catalog/handlers/base_document.py:61-74 | What get returns is the last of the id's versions, or the last one with the file |
| Documents.GetReturnsTheLastWrite | src/catalog/handlers/base_document.py:61-74 | After any run of writes get returns the version the last write to the id produced |
| Documents.EntriesArePermanent | src/catalog/handlers/base_document.py:37-130 | The list never shrinks, and id, hash, url, format and publication date of an entry never change |
| Revisions.DiffRoundTrip | src/catalog/utils.py:200-206 | Applying the patch from a to b to a gives b, for any two JSON values |
| Revisions.DiffToItself | src/catalog/utils.py:203-206 | The patch between equal values is empty, so an update without effect records no revision |
| Revisions.Editable.AppendRevision | src/catalog/utils.py:159-197 | Appends one revision with the patch, empty or not, and the revision id read, creating the list if need be |
| Revisions.Editable.GetRevisionChanges | src/catalog/utils.py:200-206 | Records the patch from the new state back to the old one if there is any difference |
| Revisions.RollbackUndoes | src/catalog/utils.py:159-206 | Popping the last revision and applying its patch gives the state before the update, whole and exact |
| Revisions.IdleUpdateIsSkipped | src/catalog/utils.py:203-206 | An update without effect changes nothing but the revision id, and rolling back skips it |
| Revisions.HistoryReplaysBackwards | src/catalog/utils.py:159-206 | After any run of updates, with an effect or without, popping k revisions rebuilds the state before the last k updates that had one |
| Revisions.WholeHistoryReplays | src/catalog/utils.py:200-206 | Popping all revisions rebuilds the empty object, but for a revision id if the first update had no effect |
| Revisions.PatchLeavesBookkeeping | src/catalog/utils.py:168-174 | The list of revisions and the revision id never enter a patch |
| Revisions.CronWriteLeaksIntoThePast | src/cron/inactivate_products_task.py:36-43 | A field a cron sets without recording it shows up in the earlier state when an update that left it alone is rolled back |
| Requirements.ValidateValues | src/catalog/validations.py:39-64 | The loop over the values and the checks of the list give the verdict of CheckValues, errors and exceptions told apart |
| Requirements.AcceptedExactly | src/catalog/validations.py:39-64 | Which lists are let through: non-empty, every value of the type, in range and matching, every value an expected one, and as many as asked for |
| Refinement.ValidateProfileRequirements | src/catalog/validations.py:148-198 | Each requirement is checked against the last one of the category with its title; the first that fails decides |
| Refinement.ProfileRefinesCategory | src/catalog/validations.py:164-220 | Of two valid requirements, if the profile's passes the check against the category's and keeps its pattern if it has one, every list of values the former accepts the latter accepts |
| Refinement.PatternsDecide | src/catalog/validations.py:164-198 | Whatever patterns mean, that holds if and only if the category has no pattern, the profile has the same, or no list of values fits the profile at all |
| Refinement.PatternIsNotCompared | src/catalog/validations.py:57-58 | Two valid requirements that pass the check, the category's with a pattern the profile drops, and a value that separates them |
| Refinement.ProfileTreeRefinesCategory | src/catalog/validations.py:148-198 | The same over whole trees: an answer that fits the profile names an unarchived requirement of the category and, if that has no other pattern, fits it |
| Refinement.ResponsesRefineExactly | src/catalog/validations.py:67-77 | For whole responses refinement holds if and only if the profile does not list an expected value, one its own pattern lets through, where the category has none |
| Refinement.ResponseFitsCategory | src/catalog/validations.py:67-77 | Unless that is so, every response that fits the profile requirement fits the category requirement |
| Refinement.ResponsesRefineForAllPatterns | src/catalog/validations.py:67-77 | For whole responses and whatever patterns mean: refinement holds if and only if the pattern is kept and the profile has expected values only where the category has them, or nothing fits the profile |
| Refinement.DateTimesNeedNotRefine | src/catalog/validations.py:70-73 | Two valid date-time requirements that pass the check and a response the profile accepts and the category refuses |
| Refinement.CopyIsAccepted | src/catalog/validations.py:164-198 | The check is not too strict: a profile may copy any valid unarchived requirement of its category |
| ProductCheck.ValidateResponses | src/catalog/validations.py:80-128 | Accepts exactly if every response names a known requirement that is not newly archived and fits it, at most one localization group is answered, and every required classification is |
| ProfileMatching.StrictAndLooseAgree | src/cron/related_profiles_task.py:163-212 | For a response the strict check accepts, the cron accepts it if and only if the bounds hold between floats too or, with a list, enough of the values differ |
| ProfileMatching.StrictImpliesLoose | src/cron/related_profiles_task.py:163-212 | With numeric bounds or none and no value given twice, the cron accepts whatever the strict check accepts |
| ProfileMatching.TextualBoundIsLost | src/cron/related_profiles_task.py:179-186 | A valid date-time requirement and a response the strict check accepts and the cron refuses |
| ProfileMatching.DuplicateIsLost | src/cron/related_profiles_task.py:195-198 | A response with a value given twice that the strict check accepts and the cron refuses |
| ProfileMatching.TighteningShrinks | src/cron/related_profiles_task.py:135-203 | Without patterns, a tighter requirement accepts no more than the looser one, if and only if it does not add a list of expected values, where nothing was demanded, that leaves room for a foreign value |
| RelatedProfiles.CheckCriteria | src/cron/related_profiles_task.py:114-132 | Every criterion has all groups answered, a localization criterion exactly one |
| RelatedProfiles.ValidateRequirements | src/cron/related_profiles_task.py:135-160 | Accepts exactly if some response hits a requirement and all hits are valid; raises exactly if a hit has no value to take and all hits before it are valid |
| RelatedProfiles.GetRelatedProfiles | src/cron/related_profiles_task.py:81-100 | Returns the ids of the listed profiles in stored order; raises exactly if the check of a profile whose criteria are covered does |
| RelatedProfiles.DyingNeedsAnEmptyList | src/cron/related_profiles_task.py:206-212 | It can only raise on a response with an empty list of values |
| RelatedProfiles.ListedExactly | src/cron/related_profiles_task.py:81-160 | An id is stored if and only if a profile of that id has requirements, its criteria are covered, some response hits one of its requirements and all hits are valid |
| RelatedProfiles.LocalizationAgrees | src/cron/related_profiles_task.py:125-127 | For a product its category accepted, a profile whose localization groups come from different groups of the category has at most one answered, so exactly one is answered as soon as some is |
| Pagination.PaginatedResult | src/catalog/db.py:182-240 | The page is the first part, of clamped size, of the sorted documents beyond the offset; the links start at its last and its first document |
| Pagination.NextPageSkipsTies | src/catalog/db.py:191-194 | A step to the next page skips exactly the documents tied with the last one of the page but sorted after it |
| Pagination.FollowDelivers | src/catalog/db.py:186-232 | Following the links ends and delivers every remaining document once and in order if and only if no page ends between two documents of the same date, forward or descending |
| Pagination.TraversalIsComplete | src/catalog/db.py:186-232 | With distinct dates the pages from the empty offset add up to the sorted collection |
| Pagination.PreviousPage | src/catalog/db.py:234-239 | The previous link of a page leads to the page before it, reversed |
| Feed.RunKeepsInv | src/catalog/db.py:182-232 | In any run of crawls and fitting writes every document at or below the crawler's offset has been delivered in its current version |
| Feed.WriteKeepsSeenExactly | src/catalog/db.py:191-194 | Whatever its date, a write keeps that true if and only if it is dated beyond the offset or the crawler has that version already |
| Feed.WriteKeepsInvExactly | src/catalog/db.py:191-209 | And it keeps the whole invariant, distinct dates included, if and only if besides no other document bears its date |
| Feed.LaterFits | src/catalog/db.py:191-194 | Writers that stamp documents later than all stored ones always fit, wherever the crawler is |
| Feed.EmptyPageMeansComplete | src/catalog/db.py:226-232 | When the crawler gets an empty page, every document has been delivered in its current version |
| Feed.EarlyStampIsMissed | src/catalog/db.py:191-194 | A document stamped at or below the offset is on no page, in any run of crawls and writes of other documents |
| Feed.EarlyStampHappens | src/catalog/db.py:191-194 | A run from the empty feed in which a document stored late, under an earlier stamp, is missed |
| CriteriaTree.ValidateTitlesUnique | src/catalog/validations.py:223-231 | Comparing the number of titles with the number of different ones finds exactly the trees with a title used twice |
| CriteriaTree.ValidateClassificationsUnique | src/catalog/validations.py:244-249 | The same for the classifications of criteria |
| CriteriaTree.FindItem | src/catalog/utils.py:138-142 | The first of the items with the id, or -1 exactly if none has it |
| CriteriaTree.CriteriaDocument.Find | src/catalog/utils.py:138-142 | The loop over the criteria finds what FindItem says |
| CriteriaTree.CriteriaDocument.PostCriteria | src/catalog/handlers/base_criteria.py:90-105 | Appends the criteria, or refuses a classification used twice and writes nothing |
| CriteriaTree.CriteriaDocument.PatchCriterion | src/catalog/handlers/base_criteria.py:129-139 | Patches the criterion unless another one of the tree before the patch has the classification; raises if one of them has none |
| CriteriaTree.CriteriaDocument.DeleteCriterion | src/catalog/handlers/profile.py:290-296 | Removes the criterion |
| CriteriaTree.CriteriaDocument.PostGroup | src/catalog/handlers/base_criteria.py:165-176 | Appends an empty group; refused for a second group outside localization |
| CriteriaTree.CriteriaDocument.PatchGroup | src/catalog/handlers/base_criteria.py:199-209 | Changes the description of the group |
| CriteriaTree.CriteriaDocument.DeleteGroup | src/catalog/handlers/profile.py:356-363 | Removes the group |
| CriteriaTree.CriteriaDocument.DeleteRequirement | src/catalog/handlers/profile.py:460-468 | Removes the requirement |
| CriteriaTree.UniquenessIsKept | src/catalog/handlers/base_criteria.py:86-315 | In every run of edits requirement titles stay unique over the whole tree, classifications and ids unique among the criteria |
| ConcurrentEditing.TreesStayUnique | src/catalog/db.py:331-336 | In every interleaving of clients that edit trees, at every moment, the same is true of all stored trees |
| CriteriaTree.EditKeepsOneGroupExactly | src/catalog/handlers/base_criteria.py:125-176 | An accepted edit keeps the rule of one group outside localization if and only if it does not take the localization classification from a criterion with several groups |
| CriteriaTree.OneGroupIsKept | src/catalog/handlers/base_criteria.py:86-315 | Every run without such an edit keeps the rule |
| CriteriaTree.OneGroupCanBreak | src/catalog/handlers/base_criteria.py:135-137 | A run of four edits from an empty tree that breaks the rule |
| ProfileEditing.EditMembers | src/catalog/handlers/base_criteria.py:244-258 | No edit brings a requirement into the tree but those it was sent |
| ProfileEditing.EditsKeepNarrowing | src/catalog/handlers/profile.py:382-385 | Checking only the new or patched requirements keeps the whole profile valid and within its category in every run of edits of the profile |
| ProfileEditing.PostRequirementsToProfile | src/catalog/handlers/profile.py:367-385 | Posting requirements to a profile, the models and the check against the category included |
| ProfileEditing.PatchRequirementOfProfile | src/catalog/handlers/base_criteria.py:289-315 | Patching one: the fields sent are merged, fields sent as null deleted, and the result is checked by the model and against the category |
| CategoryEditing.PostRequirementsToCategory | src/catalog/handlers/category.py:265-298 | Posting requirements to a category, the model included |
| CategoryEditing.PatchRequirementOfCategory | src/catalog/handlers/category.py:301-333 | Patching one, without a look at the profiles |
| CategoryEditing.ChangeKeepsNarrowingExactly | src/catalog/handlers/category.py:301-333 | A changed category still contains a profile if and only if the requirements of the profile whose counterpart changed pass the check against the new one |
| CategoryEditing.OnlyPatchesNeedChecking | src/catalog/handlers/category.py:173-333 | No edit of a category but a patch of a requirement can take a profile out of it |
| CategoryEditing.ArchivingBreaks | src/catalog/validations.py:161-162 | Archiving a requirement does, for every profile that has it |
| CategoryEditing.ArchivingHappens | src/catalog/handlers/category.py:301-333 | A run of seven edits from nothing, all accepted by their handlers, that ends with the profile outside its category |
| CategoryEditing.EditedProfileNarrows | src/catalog/handlers/profile.py:416-419 | End to end: profile and category edited side by side from nothing, the profile rechecked where a requirement of the category is patched; an answer that fits one of the profile's requirements names an unarchived requirement of the category and, if that has no pattern, fits it |
| Migration.Draft.TakeMinFromResponses | src/catalog/migrations/cs_17668_standartize_requirements.py:74-80 | The minimum is the least response converted to the type, or 0 without responses; fails if a conversion raises |
| Migration.Draft.UpdateInteger | src/catalog/migrations/cs_17668_standartize_requirements.py:149-173 | The in-place rewriting of integers is RewriteInteger |
| Migration.Draft.UpdateNumber | src/catalog/migrations/cs_17668_standartize_requirements.py:176-197 | The in-place rewriting of numbers is RewriteNumber |
| Migration.Draft.UpdateString | src/catalog/migrations/cs_17668_standartize_requirements.py:200-232 | The in-place rewriting of strings is RewriteString |
| Migration.Draft.UpdateBoolean | src/catalog/migrations/cs_17668_standartize_requirements.py:235-257 | The in-place rewriting of booleans is RewriteBoolean |
| Migration.Draft.Update | src/catalog/migrations/cs_17668_standartize_requirements.py:276-295 | The rewriting of one requirement: bounds give way to expected values, then the type decides, then units go |
| Migration.StringsAreNormal | src/catalog/migrations/cs_17668_standartize_requirements.py:276-295 | A requirement that ends as a string has a non-empty list of strings to choose from, at least one to be chosen, and neither unit nor bounds |
| Migration.RangeIsKept | src/catalog/migrations/cs_17668_standartize_requirements.py:149-197 | A requirement that stays numeric admits the same numbers as before, but for the minimum it is given where it had none |
| Migration.ResponsesStillFit | src/catalog/migrations/cs_17668_standartize_requirements.py:170-173 | An unconstrained number is given constraints under which every response of a product, converted to the type, passes the strict check |
| Migration.TextsStillFit | src/catalog/migrations/cs_17668_standartize_requirements.py:206-227 | A string without expected values is given a list under which every response, converted to text, passes the strict check |
| Migration.MigrationIsIdempotent | src/catalog/migrations/cs_17668_standartize_requirements.py:149-295 | Rewriting twice equals rewriting once, up to Python's equality of numbers and whatever the responses are the second time, if and only if the requirement is not a boolean with both truth values expected and a value that is none |
| Migration.ValidRequirementsMigrateOnce | src/catalog/migrations/cs_17668_standartize_requirements.py:149-295 | For every requirement the models accept, rewriting twice equals rewriting once |
| Migration.TwoRunsHappen | src/catalog/migrations/cs_17668_standartize_requirements.py:235-257 | A stored requirement that needs two runs, with what each of them makes of it |
| MigrationRun.MigrateList | src/catalog/migrations/cs_17668_standartize_requirements.py:268-298 | The inner loop: the rewritten requirements that are kept, and whether one of them changed; dropping one does not count |
| MigrationRun.UpdateCriteria | src/catalog/migrations/cs_17668_standartize_requirements.py:260-306 | The tree to store if some kept requirement changed, nothing otherwise |
| MigrationRun.MigratedTreeFlattens | src/catalog/migrations/cs_17668_standartize_requirements.py:260-306 | Migrating a tree and listing its requirements is migrating the list |
| MigrationRun.SecondRunWritesNothing | src/catalog/migrations/cs_17668_standartize_requirements.py:260-306 | A second run over what is stored never fails, and writes if and only if a requirement the profile keeps needs two runs |
| MigrationRun.ValidTreesMigrateOnce | src/catalog/migrations/cs_17668_standartize_requirements.py:260-306 | Over requirements the models accept a second run never writes |

## Left out

- The MongoDB driver, sessions, indexes and read preferences: a collection is a map, or a sequence queried by filter and sort; every operation on one document is atomic.
- HTTP, pydantic parsing beyond the validators of requirements, serializers, logging, access tokens, accreditation and file links: plumbing.
- Agreements, the medicine registry, tags and images: external services and checks that are not atomic.
- Decimals and floats: amounts and values are reals, so rounding, infinities and NaN do not occur; int(value), float(value), str(value) and re.match are parameters.
- Time zones: a bid date is a local day and a rest, ordered as the ISO strings are.
- Bids of equal date keep their stored order in a query; only the unit name of a price can depend on it. The ids and creation dates of prices are left out.
- PriceEngine.WatermarkLosesNothing: assumes that bids are timely, that no product fails and that all bids seen lie before the run's day, because the code can lose prices otherwise (LateBidIsNotPriced, FailureHidesABid, UnfinishedDayHidesABid); RunIsExactAfterAnyHistory assumes nothing. The runs of a history go through the selected products once, which VisitedIsSelected and VisitedOnOneDay justify for runs that see no bids of their own day or do not cross midnight.
- Refinement.ProfileRefinesCategory: asks for the pattern of the category to be kept, because the code does not compare patterns; PatternsDecide says that this is the exact condition.
- Store.NoLostUpdates: a revision id is drawn at most once, as a uuid is, and documents are inserted with a revision; a document without one is covered by RevlessReaderOverwrites.
- Bans.VendorsAreConsistent: assumes that the cron's late writes are harmless, because the code does not see to it (LateLiftHappens).
- Feed.EmptyPageMeansComplete: assumes that writes fit, because handlers stamp documents before they store them and the code does not see to it (EarlyStampHappens).
- Bans.VendorRecord.Patch: whether the identifier is free is a parameter, because the code checks it against other documents without locking them. The due date of a vendor ban is a parameter as well (a year later, 29 February aside).
- Revisions.DiffRoundTrip: the patch is made item by item, without the move operations the library finds; revisions keep their patches as such, not encoded in JSON. The loop over status changes in append_obj_revision has no effect on dicts, whose entries are not attributes.
- Pagination.PaginatedResult: a malformed offset, projections and the urls of the links.
- Requirements.ValidateValues: a requirement of a type outside the five known ones. The ISO code lists behind dataSchema are left out of the validators.
- ProfileEditing.PatchRequirementOfProfile: descriptions, periods and evidences of requirements are left out.
- CategoryEditing.EditedProfileNarrows: assumes that the profile is rechecked where a requirement of the category is patched, because the code does not do it (ArchivingBreaks).
- Migration.MigrationIsIdempotent: str of a string is that string; the responses of products are a list, in the order the set of them is walked.
- MigrationRun.UpdateCriteria: fetching the category for a profile and writing in bulks; the conversion of the products' own responses is not modelled beyond ResponsesStillFit and TextsStillFit.
- The other crons, migrations, seed data, categories' status, product and vendor handlers not named above: no deep property.
