# Fast forms and simple meanings in the SQL bridge

This project models three connected parts of pysqlbridge, a server that answers
SQL over lists of rows read from HTTP APIs, and proves that their fast or clever
code agrees with a simple meaning.

* **The query executor** (`src/pysqlbridge/catalog.py`,
  `src/pysqlbridge/aggregate.py`, over the values and conditions of
  `src/pysqlbridge/predicate.py`): the hash join, the EXISTS answered from one
  read, the correlated selects and APPLY that remember their answers, ORDER BY
  as one stable sort a key, TOP WITH TIES, set operators folded over a chain,
  grouping by a dictionary, variance in one pass.
* **The batch interpreter** (`src/pysqlbridge/catalog.py`): IF, WHILE, BREAK and
  CONTINUE, nested TRY and CATCH, errors that stop a batch or become one of its
  answers, XACT_ABORT, transactions and savepoints, and the matcher that finds a
  TRY's own END TRY.
* **The HTTP source** (`src/pysqlbridge/http_source.py`) and the crawl beside it
  (`src/pysqlbridge/discover.py`): predicted pages asked for in batches, the
  cached table refreshed behind a returning query by many threads, and the walk
  of an API under a budget of requests.

Code that changes things step by step is a method or a class here, proved
against a function of its inputs; what the code promises is then proved of that
function. Code made of expressions is functions. Threads are a state machine:
every read and write of a shared field is a step of its own, and a run is any
sequence of steps of any threads.

| file | holds |
|---|---|
| `Values.dfy`, `Expressions.dfy` | values, the collation, comparison, three-valued conditions, and the parts ANDed at their top |
| `InTurn.dfy`, `NestedLoop.dfy`, `Join.dfy`, `JoinAnswers.dfy`, `JoinExactly.dfy` | the joined table, the loop over every pair and the loop over buckets; which rows a join answers and in which place; which equalities an ON offers, and when its buckets lose nothing |
| `Candidates.dfy`, `Exists.dfy` | values kept ready to be looked up in, and EXISTS answered from one read |
| `Remembered.dfy` | correlated selects and APPLY that remember their answers |
| `StableSorting.dfy`, `OrderBy.dfy`, `Ties.dfy` | stable sorting by several keys, WITH TIES, the page; exactly when the ties are those of the sort |
| `SetOperators.dfy`, `Grouping.dfy`, `Spread.dfy` | set operators, GROUP BY and its figures, variance |
| `Transactions.dfy`, `Batch.dfy`, `BatchControl.dfy`, `BatchLaws.dfy` | transactions, the interpreter, which statements run, and what every run keeps to |
| `TryMatcher.dfy` | the words that close a TRY and its CATCH |
| `Paging.dfy`, `Collections.dfy`, `PagingLaws.dfy` | reading a collection page by page, whole collections, and what reading ahead promises |
| `Refresh.dfy`, `RefreshHistory.dfy` | the cache, its lock and its threads, and which table is served |
| `Crawl.dfy`, `CrawlLaws.dfy` | the walk of an API, and what it asks for |

## Where the code and a promise part

Each of these has a lemma that exhibits the case at an input, and wherever the
promise can be saved a condition under which it holds.

* An EXISTS over a list that aggregates is answered 0 from one read where the
  subquery answers a row (`AggregateIsLookedUpWrongly`); the shortcut is right
  exactly where the list does not aggregate
  (`ShortcutHoldsWhereNothingAggregates`).
* That one read filters the inner table without the correlated equality, so a part
  of the WHERE the equality guards is asked of rows it never reaches when the
  subquery is run, and may refuse there (`UnguardedPartIsRefused`). Wherever the
  run answers, the lookup answers the same exactly where the value is NULL or the
  read is not refused (`LookingUpIsRunning`).
* A hashed join finds its columns by other rules than its ON reads them. A table
  joined to itself under one alias is hashed on two columns its ON reads as one
  (`OneNameTwiceIsHashedWrongly`), and a flattened column of one table may be
  called what a column of the other is called without its alias, a.c beside
  o.[a.c] (`NestedNameIsHashedWrongly`): either way rows are lost. The join is
  right wherever each column hashed is the one read (`HashedJoinIsTheJoin`); over
  columns of one kind and equalities alone, exactly where each two columns hashed
  together are made equal by the equalities as they are read
  (`EqualitiesAreHashedRightlyExactly`), for one equality exactly where it reads
  them (`OneEqualityIsHashedRightlyExactly`).
* A correlated select is remembered under a key that takes 1 and 1.0 for one
  (`OneForTheOther`). Each row is answered as a run for it answers exactly where
  keys taken for one are answered alike (`RememberedIsAskedAfresh`).
* The sort and the scan for ties find the columns of an expression each in a way of
  its own: over a table in lower case and as they are, over a grouped result under
  every name a column answers to and under the headings alone. So WITH TIES ties on
  another column than it sorts by (`CaseTiesOnAnotherColumn`), or sorts and is then
  refused (`AmbiguousTieIsRefused`, `GroupedTieIsRefused`). It keeps the ties of the
  sort, whatever the key computes, exactly where both find every column at one
  place (`OneKeyTiesExactly`), and by any number of columns exactly where the places
  found are the same taken together (`PlainKeysTieExactly`).
* A set operator chain is folded as it is written, so UNION before INTERSECT
  answers what SQL-92 does exactly where every row of the first is one of the
  last's (`FoldingAsWrittenAgrees`, `UnionBeforeIntersectLosesARow`).
* TOP PERCENT WITH TIES scans its ties from the number written and not from the
  share it stands for (`PercentTiesReadTheNumberWritten`, and at an input
  `HalfOfFourKeepsAll`).
* The repository's `README.md:959` says XACT_ABORT changes where a batch stops
  rather than what it keeps. Of the answers gathered that is so
  (`RunUnderTheSetting`). Of what a client is sent it is so exactly unless the
  batch, with the setting off, goes on to an error that throws away what answered
  (`BatchUnderTheSetting`, `LaterErrorHidesTheFirst`).
* A comment (`src/pysqlbridge/catalog.py:3280-3289`) says that a batch whose one
  error it runs on past keeps its transaction. That error is asked about again
  when the batch is over: a divide by zero and then SET XACT_ABORT ON loses the
  transaction (`LoneErrorLosesTheTransaction`), and no other batch that runs to
  its end does (`RunningOnKeepsTransactions`).
* A comment beside the block (`src/pysqlbridge/catalog.py:1806-1811`) says that
  BEGIN COMMIT END leaves 3902 behind as a bare COMMIT does. The batch runs on
  past that error inside the block, and then puts @@ERROR back to nought after
  the block as after any other statement (`BlockedCommitIsCleared`). The code is
  followed; which statements leave an error behind is `OnlyTheseLeaveAnError`.
* SAVE with a variable that is NULL is accepted, and every ROLLBACK after it
  fails inside the server (`NullMarkCrashes`), which is the only way one does
  (`CrashesWhereANullIsMarked`).
* A page that fails while pages are read ahead is taken for the end of the
  collection, and the read says there is no more; following the link to it
  raises (`FailureIsReadAsTheEnd`).
* A document past the end that holds no records where they should be makes the
  whole read fail (`MisshapenPastTheEndRaises`); reading ahead raises nowhere else
  (`AheadAsks`).
* The bound on rows is looked at between batches. A collection that fills
  max_rows exactly and whose last page links on is read to the empty page behind
  it, and said to have no more, where the links stop and say that there is
  (`FullCollectionReadsApart`); one with more rows is served in part by the links
  and refused by reading ahead (`ServedByTheLinksAndRefused`). The two read alike
  exactly where no request of the links fails and they are not stopped by their
  rows inside a batch (`AheadIsFollowingTheLinks`,
  `ReadingAheadIsFollowingLinks`): where a batch ends is each page_workers pages,
  the bound on pages and, where a total is declared and the pages are full, the
  end of the collection (`BatchesEndInWorkers`, `BatchesEndWithTheTotal`). Within
  max_rows only the full collection that links on can read apart so
  (`FittingCollectionsReadAlike`).
* One refresh at a time holds from the first table on. Before it, a load waiting
  for the lock may clear the flag of a refresh let through meanwhile
  (`TwoRefreshesAfterAColdStart`); that step is the only one that breaks the
  promise (`FlagStaysRight`). A priming may leave a needless fetch
  (`PrimingLeavesANeedlessFetch`), exactly where it is stamped while a refresh is
  awaited (`DueStaysDue`, `FetchesWhatIsDue`).
* A level of the crawl that has harvested more than 200 links, repeats counted,
  reads none from the pages after. So a walk can end under its budget and miss a
  page within its depth (`WalkMissesAPage`); one that enters no such page short of
  its last level misses none (`ReachableIsClaimed`).

## What is assumed of what is not modelled

* How text reads as a number, how a value reads as a moment and what a scalar
  function or a test answers are parameters (`World`): every theorem holds for
  every such world, with one exception, that a value and the key it is looked up
  by read as the same moment (`ReadsMomentsByKey`).
* The columns of a join hold values of their declared kinds, an integer being
  one of a float column's too.
* A correlated select answers the same for the same values.
* A server answers an address the same way however its query is written, and
  answers the same while one collection is read.

## Model

| member | source | states |
|---|---|---|
| Values.AtMostIsATotalOrder | src/pysqlbridge/predicate.py:2531-2544 | The order the collation's keys are sorted in is total and transitive, NULL lowest, and only equal keys tie in it. |
| Values.KeysByTheirSize | src/pysqlbridge/predicate.py:2531-2544 | NULL comes before everything else, smaller numbers before greater, earlier moments before later. |
| Values.TextsByTheFirstDifference | src/pysqlbridge/predicate.py:2531-2544 | Texts are ordered by the first letter they differ in, and one that the other begins with comes first. |
| Values.TextsAreOne | src/pysqlbridge/predicate.py:2531-2544 | Two texts are equal exactly where, the spaces they end in gone, they are the same letter for letter however cased. |
| Values.NumbersCompareBySize | src/pysqlbridge/predicate.py:2662-2709 | Each of the six operators says of two numbers what it says of their sizes. |
| Values.OperatorsAgree | src/pysqlbridge/predicate.py:2662-2709 | Of any two values that can be compared exactly one of less, equal and greater holds, and the other operators follow from them. |
| Values.TextIsConverted | src/pysqlbridge/predicate.py:2684-2701 | Beside a number a text is compared as the number it reads as, beside a moment as a moment, and refused where it reads as none. |
| Expressions.TrueWhereEveryPartIs | src/pysqlbridge/predicate.py:3797-3805 | A condition under three-valued logic is true of a row exactly where each of the parts ANDed at its top is, and refuses only where one of them does. |
| Expressions.AllOfIsTrueWhereEveryPartIs | src/pysqlbridge/predicate.py:3808-3815 | ANDing parts back together passes exactly the rows every part is true of, no parts passing every row. |
| Expressions.UnmentionedIsUnasked | src/pysqlbridge/predicate.py:3790-3794 | A condition that mentions no parameter of a name answers the same whatever that parameter is bound to. |
| Expressions.ThreeValuesAreOrdered | src/pysqlbridge/predicate.py:3186-3217 | With false below unknown below true, AND says the lesser of its parts and OR the greater; the second part is reached only where the first does not settle it, and refuses the whole where it is reached and refuses. |
| Expressions.NotTurnsAndIntoOr | src/pysqlbridge/predicate.py:3186-3228 | NOT over AND is OR over NOT, the other way round, and NOT twice is nothing, refusals and all. |
| Expressions.NotIsTheOpposite | src/pysqlbridge/predicate.py:3220-3228 | NOT leaves unknown as it is and turns true and false about. |
| Expressions.NullIsUnknown | src/pysqlbridge/predicate.py:3161-3184 | A comparison with NULL says neither, and IS NULL tells it. |
| Lookup.Prepare | src/pysqlbridge/predicate.py:2976-3033 | One pass over what is offered fills the sets and the list of candidates that could refuse. |
| Lookup.CandidatesAreFaithful | src/pysqlbridge/predicate.py:2976-3033 | The sets hold the folded keys and the numbers of exactly the values offered, and the lists exactly those that could refuse. |
| Lookup.AnyMatchSays | src/pysqlbridge/predicate.py:2934-2953 | Comparing candidates in turn answers true where any matches, even past one that refuses, refuses where one does and none matches, and is otherwise false. |
| Lookup.LookupIsComparingEach | src/pysqlbridge/predicate.py:3035-3088 | Looking a value up answers what comparing it with every candidate answers, refusals included. |
| Lookup.LookupOfAMoment | src/pysqlbridge/predicate.py:3035-3072 | The same for a moment, against candidates read as moments by their keys. |
| CorrelatedExists.BoundIsSubstituted | src/pysqlbridge/predicate.py:3852-3866 | Reading each reference to the outer column as a bound parameter says what the condition says with the outer row's value written in its place. |
| CorrelatedExists.OnlyTheOuterIsReplaced | src/pysqlbridge/predicate.py:3852-3866 | What does not refer to the outer column is left as it is, and nothing refers to it any more. |
| CorrelatedExists.ShapedSelectsOnlyFilter | src/pysqlbridge/catalog.py:1424-1432 | The shortcut is taken only where nothing after the filter decides which rows there are. |
| CorrelatedExists.WhereIsRestAndMatching | src/pysqlbridge/catalog.py:1424-1450 | Wherever the inner WHERE is not refused it is true of a row exactly where what is left without the correlated equality is and the equality is; and where the rest is true the equality was asked. |
| CorrelatedExists.MatchingComparesTheValue | src/pysqlbridge/catalog.py:1424-1450 | The equality dropped is true exactly where the matched column compares equal to the outer value, never with NULL on either side. |
| CorrelatedExists.LookingUpIsRunning | src/pysqlbridge/catalog.py:1406-1478 | Wherever running the subquery for a value is not refused, looking the value up in one read of the inner table answers the same 0 or 1, NULLs included, exactly where the value is NULL or that read is not refused. |
| CorrelatedExists.UnguardedPartIsRefused | src/pysqlbridge/catalog.py:1450-1471 | Over a row of another owner whose x is no number, owner = p.id AND x > 3 is run to 0 and refused when looked up. |
| CorrelatedExists.ReadOnce.Produce | src/pysqlbridge/catalog.py:1452-1478 | The answer for one outer row, the inner table read at most once and never for a NULL. |
| CorrelatedExists.ReadOnce.ProduceEach | src/pysqlbridge/catalog.py:1406-1478 | Over every outer row in turn, from one read of the inner table at most: where running the subquery is not refused each answer is the run's exactly where the value is NULL or the read is not refused. |
| CorrelatedExists.AggregateIsLookedUpWrongly | src/pysqlbridge/catalog.py:1424-1450 | EXISTS over COUNT(*) and no rows passes the guard, is 1 when run and 0 when looked up. |
| CorrelatedExists.ShortcutHoldsWhereNothingAggregates | src/pysqlbridge/catalog.py:1424-1450 | Past the guard, the shortcut answers what the subquery does over every inner table and for every value neither refuses, exactly where the list does not aggregate or FETCH takes no row. |
| NestedLoop.BucketHitsAreAllHits | src/pysqlbridge/catalog.py:4332-4341 | Trying only the bucket of a left row's key finds every right row the ON is true of, in the same order. |
| NestedLoop.NullKeyHitsNothing | src/pysqlbridge/catalog.py:4333-4341 | A left row whose key holds a NULL matches nothing. |
| NestedLoop.FillBuckets | src/pysqlbridge/catalog.py:4324-4329 | The dictionary holds under each key without NULL the positions of the right rows of that key, in order. |
| NestedLoop.ByBuckets | src/pysqlbridge/catalog.py:4323-4349 | The bucketed loop answers the joined table of the all-pairs loop, row for row; it is stopped for size exactly where that table is past the ceiling, and refuses only what trying every pair would. |
| NestedLoop.ByPairs | src/pysqlbridge/catalog.py:4351-4367 | With no equality to hash on every pair is tried, refused where one refuses or where there are more pairs than the ceiling. |
| NestedLoop.JoinHolds | src/pysqlbridge/catalog.py:4294-4367 | The joined table holds the matched pairs, the unmatched rows of each kept side padded with NULLs, and no other row. |
| Join.Equalities | src/pysqlbridge/catalog.py:4207-4234 | The stack opens out the ON into its top-level ANDs and finds the column pairs of the equalities among them. |
| Join.BackwardsAreTheConjuncts | src/pysqlbridge/catalog.py:4207-4234 | The parts the stack meets are exactly the parts ANDed at the top. |
| Expressions.ReadsOnePlace | src/pysqlbridge/predicate.py:2017-2062 | Whatever row stands under the names, a reference reads the value at one place, settled by the names. |
| Join.IndexIsWhatIsRead | src/pysqlbridge/catalog.py:4264-4275 | Under names all different and qualified by alias, the column an index is found for is the place its reference reads in the joined row, wherever no column's whole name is what the reference is called without its qualifier. |
| Join.QualifiedColumnsAreHashedAsRead | src/pysqlbridge/catalog.py:4174-4183 | So tables qualified by alias, nested names and all, are hashed on what their ON reads. |
| Join.EqualMeansEqualKeys | src/pysqlbridge/catalog.py:4237-4261 | Between columns that bucket alike, "=" is true of two values exactly where their collated keys are equal, and neither key is that of NULL. |
| Join.SatisfiedPairsShareABucket | src/pysqlbridge/catalog.py:4237-4261 | Wherever each equality is hashed on the columns it reads, a pair of rows the ON is true of has equal keys without NULL, so a bucket never keeps it apart. |
| NestedLoop.FilteredJoinIsTheJoin | src/pysqlbridge/catalog.py:4332-4341 | Asking only pairs of equal keys joins the same rows wherever no pair asked true is kept apart. |
| Join.HashedJoinIsTheJoin | src/pysqlbridge/catalog.py:4294-4367 | Wherever each equality is hashed on the columns it reads, the join by buckets is the nested loop's, row for row. |
| JoinAnswers.JoinTables | src/pysqlbridge/catalog.py:4294-4367 | The join as run. CROSS answers every left row beside every right row. INNER, LEFT, RIGHT and FULL answer exactly the pairs the ON is true of, LEFT and FULL each left row no right row is found for beside NULLs, RIGHT and FULL NULLs beside each right row no left row is found for, each in its place; with the pairs of equal keys alone where an equality is hashed on what it does not read. It is refused only where the ON refuses a pair or for its size. |
| JoinAnswers.MembersAreJoined | src/pysqlbridge/catalog.py:4294-4367 | A row is in the join exactly where it is one of those, said of the tables, the kind and the ON alone. |
| JoinAnswers.JoinedInPlace | src/pysqlbridge/catalog.py:4336-4353 | Each left row's pairs stand behind what the left rows before it answer, in the order of the right rows, and the right rows kept alone behind all of them, in theirs. |
| JoinAnswers.CrossedInPlace | src/pysqlbridge/catalog.py:4315-4318 | Of a cross join the k-th right row beside the i-th left row stands at i times the right rows, plus k. |
| JoinExactly.EqualitiesAreHashedRightlyExactly | src/pysqlbridge/catalog.py:4207-4275 | On equalities over columns of one kind, however many, all rows are joined rightly exactly where each two columns hashed together are made equal by the equalities as the ON reads them, or one of those reads nothing. |
| JoinExactly.OneEqualityIsHashedRightlyExactly | src/pysqlbridge/catalog.py:4207-4275 | On one equality, exactly where the columns hashed are those the ON reads. |
| Join.OneNameTwiceIsHashedWrongly | src/pysqlbridge/catalog.py:4207-4275 | Of two columns of one name the ON reads one twice and the hash both: the join of 1 and 2 holds the pair and the join by buckets nothing. |
| Join.NestedNameIsHashedWrongly | src/pysqlbridge/catalog.py:4264-4275 | With a.c beside o.[a.c], names all different, the hash takes one for the other and loses the pair. |
| Remembered.OneKindHashesApart | src/pysqlbridge/catalog.py:1380-1404 | Among values of one kind each, two keys a dictionary takes for one are the same values. |
| Remembered.RememberedIsAskedAfresh | src/pysqlbridge/catalog.py:1380-1404 | What is remembered for each key is what running the inner select for it answers, exactly where keys a dictionary takes for one are answered alike. |
| Remembered.OneForTheOther | src/pysqlbridge/catalog.py:1382-1386 | 1.0 asked about after 1 is answered for 1. |
| Remembered.Memory.Ask | src/pysqlbridge/catalog.py:1380-1404 | One row's answer is that of running the inner select for the first key taken for its own, run only for a key not met before, and refused exactly where that run is or the distinct keys pass their bound. |
| Remembered.Memory.AskEach | src/pysqlbridge/catalog.py:1380-1404 | Over all rows the answers are those of running the inner select for the first key like each, from one run a distinct key. |
| Remembered.Apply | src/pysqlbridge/catalog.py:1278-1352 | APPLY answers, for each row in turn, that row beside each row answered for the first key like its own, in their order, or beside NULLs where none is and the unmatched are kept, and nothing else; for its own key where keys taken for one are answered alike. It is refused exactly where a run is, the distinct keys pass their bound or the rows pass theirs; it runs once a distinct key. |
| Remembered.AppliedAfresh | src/pysqlbridge/catalog.py:1278-1352 | That is running it afresh for each row, wherever keys a dictionary takes for one are answered alike. |
| Remembered.OuterIsCrossPadded | src/pysqlbridge/catalog.py:1343-1352 | OUTER APPLY is CROSS APPLY with one NULL-padded row in the place of each row that matched nothing, and as many rows more. |
| StableSorting.SortIsAStableSort | src/pysqlbridge/catalog.py:4050-4082 | One pass puts a list in order and leaves elements that tie as they stood. |
| StableSorting.SortsOneWay | src/pysqlbridge/catalog.py:4050-4082 | There is only one stable order of a list under a total preorder. |
| StableSorting.PassesAreOneSort | src/pysqlbridge/catalog.py:4050-4082 | Sorting by one key at a time from the last to the first is the one stable sort under the lexicographic comparison of all the keys, however many. |
| StableSorting.FirstKeyDecides | src/pysqlbridge/catalog.py:4050-4082 | The first key two elements do not tie under decides which comes first. |
| StableSorting.PassesPermute | src/pysqlbridge/aggregate.py:146-156 | The passes keep every row as often as it was. |
| OrderBy.SortRows | src/pysqlbridge/catalog.py:4031-4082 | ORDER BY answers that stable sort with each key's own direction and NULL lowest, or refuses where a key cannot order the rows. |
| OrderBy.RowsByTheFirstKey | src/pysqlbridge/catalog.py:4031-4082 | Of two rows in the answer the first key they differ under puts the lesser first ascending and the greater first descending. |
| OrderBy.OrdersAreTotal | src/pysqlbridge/catalog.py:4031-4082 | Each key's order, ascending or descending, is a total preorder, which a stable sort needs. |
| OrderBy.SameSaidTies | src/pysqlbridge/catalog.py:5139-5153 | Two rows say the same of every key exactly where neither is sorted before the other. |
| OrderBy.WithTies | src/pysqlbridge/catalog.py:5117-5155 | The scan past the limit stops where a row says something else of the keys, and refuses at a row it cannot read. |
| OrderBy.ReachTakesTheTies | src/pysqlbridge/catalog.py:5117-5155 | Over sorted rows the reach takes exactly the rows not after the last one counted: nothing kept is beyond it, nothing left out ties with it. |
| OrderBy.TopWithTies | src/pysqlbridge/catalog.py:5117-5184 | Where sort and scan find the columns of their keys at one place, TOP n WITH TIES over any rows that sort keeps of their sorted order those and only those whose keys are not after the n-th row's. |
| OrderBy.PageIsAWindow | src/pysqlbridge/catalog.py:5158-5184 | A page holds the rows from OFFSET on, each at its distance from it, as many as TOP, its share or its ties leave and FETCH takes. |
| OrderBy.CasedAlikeKeysReadAlike | src/pysqlbridge/catalog.py:5133-5147 | Over a table they do wherever no two columns differ only in case. |
| Ties.OneKeyTiesExactly | src/pysqlbridge/catalog.py:5117-5155 | Sorted by one expression, WITH TIES keeps the ties of the sort over all rows and whatever its functions compute, exactly where every column it names is found at the place the sort finds it, or the sort finds one nowhere and refuses. |
| Ties.PlainKeysTieExactly | src/pysqlbridge/catalog.py:5117-5155 | Sorted by any number of columns and positions, exactly where the scan finds them all and the places found are the sort's taken together, or the sort refuses. |
| Ties.CaseTiesOnAnotherColumn | src/pysqlbridge/catalog.py:5133-5147 | Of two columns k and K the sort reads the second and the scan the first: TOP 1 WITH TIES keeps a row that sorts after the first. |
| Ties.AmbiguousTieIsRefused | src/pysqlbridge/catalog.py:5133-5147 | Over columns t.k and t.K a key of k sorts, and its scan is refused. |
| Ties.GroupedTieIsRefused | src/pysqlbridge/catalog.py:2071-2094 | A grouped result ordered by a value of COUNT(*) AS n sorts, and its scan is refused. |
| OrderBy.SharesRoundUp | src/pysqlbridge/catalog.py:5170-5178 | TOP PERCENT takes its exact share rounded up, by less than one row. |
| OrderBy.PercentTiesReadTheNumberWritten | src/pysqlbridge/catalog.py:5132-5178 | TOP PERCENT WITH TIES keeps the ties of its share, whatever the rows and keys, exactly where the number written and the share count the same of that many rows. |
| OrderBy.HalfOfFourKeepsAll | src/pysqlbridge/catalog.py:5132-5178 | Half of four rows that never tie keeps all four, where its share is two. |
| SetOperators.DropRepeats | src/pysqlbridge/catalog.py:5098-5114 | One pass with a set of signatures keeps the distinct rows. |
| SetOperators.Combine | src/pysqlbridge/catalog.py:1183-1195 | The loop over the parts folds them left to right. |
| SetOperators.DistinctLeavesOne | src/pysqlbridge/catalog.py:5098-5114 | Dropping repeats leaves each signature exactly once and loses none. |
| SetOperators.FirstOccurrencesSurvive | src/pysqlbridge/catalog.py:5098-5114 | What survives are the first occurrences, each as it stood, in their order. |
| SetOperators.ChainKeepsTheSurvivors | src/pysqlbridge/catalog.py:1183-1195 | A whole chain answers, as they were written and in that order, the rows that survive: each was offered to the last operator, and unless that is UNION ALL no row offered before it is the same. |
| SetOperators.ChainFollowsTheAlgebra | src/pysqlbridge/catalog.py:1183-1195 | A whole chain answers each signature as often as the algebra says: UNION ALL adds, the others leave the union, difference and intersection once each. |
| SetOperators.FoldingAsWrittenAgrees | src/pysqlbridge/catalog.py:5080-5090 | Folding a UNION b INTERSECT c as written answers what binding INTERSECT tighter does exactly where every signature of a is one of c's. |
| SetOperators.UnionBeforeIntersectLosesARow | src/pysqlbridge/catalog.py:5080-5090 | One row UNION no rows INTERSECT no rows is no row as folded, and that row where INTERSECT binds tighter. |
| Grouping.Partition | src/pysqlbridge/aggregate.py:236-261 | The dictionary holds each group's rows in order, and the groups in the order of their first rows. |
| Grouping.GroupingPartitions | src/pysqlbridge/aggregate.py:246-253 | Grouping is a partition: groups of different signatures, none empty, each row in the group of its signature only and as often as it is among the rows. |
| Grouping.GroupsAddUp | src/pysqlbridge/aggregate.py:246-253 | Whatever is added up over each group adds up, over the groups, to what it is over all the rows. |
| Grouping.AddUp | src/pysqlbridge/aggregate.py:96-113 | The loop adds a column of integers up. |
| Grouping.SumIsOfThePresent | src/pysqlbridge/aggregate.py:434-448 | SUM is NULL exactly where no row holds a value, which is where COUNT is nought. |
| Grouping.GroupFiguresAddUp | src/pysqlbridge/aggregate.py:415-448 | The groups' COUNTs add up to the whole COUNT, and their integer SUMs, NULL read as nought, to the whole SUM. |
| Grouping.MinOfMins | src/pysqlbridge/aggregate.py:434-441 | The MIN of the groups' MINs exists where the whole MIN does and has its key. |
| Spread.SumsOf | src/pysqlbridge/aggregate.py:82-88 | One pass gives the count, the total and the total of squares. |
| Spread.DeviationsFromSums | src/pysqlbridge/aggregate.py:59-66 | The squared deviations from any point come from those three sums, and are never negative. |
| Spread.OnePassIsTwoPass | src/pysqlbridge/aggregate.py:59-88 | The one-pass variance is the mean squared deviation from the mean, over n or n - 1, so the clamp at nought changes nothing. |
| Transactions.Transactions.Run | src/pysqlbridge/catalog.py:769-839 | One statement leaves the count, the name and the marks, and answers, as the specification of it says. |
| Transactions.NothingOpenNothingKept | src/pysqlbridge/catalog.py:719-728 | After any log, nothing open means no name and no mark. |
| Transactions.RefusedChangesNothing | src/pysqlbridge/catalog.py:769-839 | A statement that is refused or fails leaves everything as it was. |
| Transactions.RollingBackToAMark | src/pysqlbridge/catalog.py:806-827 | Rolling back to a mark keeps exactly the marks before its newest occurrence, and the count and the name. |
| Transactions.OutcomesFollowWhatIsHeld | src/pysqlbridge/catalog.py:769-839 | What each statement comes to after any log: a ROLLBACK goes back to a mark of its name however cased, and failing that closes everything where it names nothing or the outermost transaction to the letter, and is else refused; with nothing open all but BEGIN are refused. |
| Transactions.KeptIsWhatTheLogSays | src/pysqlbridge/catalog.py:769-839 | After any log, what is kept is what the statements since the outermost BEGIN say: begins less commits, the outermost's name, and the SAVEs no later ROLLBACK took back. |
| Transactions.CrashesWhereANullIsMarked | src/pysqlbridge/catalog.py:806-835 | A ROLLBACK fails inside the server exactly where a mark with no name is held, which no log of named SAVEs leaves. |
| Transactions.NullMarkCrashes | src/pysqlbridge/catalog.py:806-835 | BEGIN, SAVE with a variable that is NULL, and any ROLLBACK fails so. |
| Batch.Looped | src/pysqlbridge/catalog.py:1970-2010 | A WHILE ends, its body run at most MAX_LOOP_TURNS times. |
| Batch.Interpreter.RunOne | src/pysqlbridge/catalog.py:1702-1928 | One statement changes the session and ends as its meaning says. |
| Batch.Interpreter.RunEach | src/pysqlbridge/catalog.py:1669-1700 | Statements in turn, an error the batch runs on past left among the answers. |
| Batch.Interpreter.TryEach | src/pysqlbridge/catalog.py:1947-1951 | A TRY's statements in turn, stopping at the first that does not end normally. |
| Batch.Interpreter.Loop | src/pysqlbridge/catalog.py:1970-2010 | The loop of a WHILE, left by a BREAK of its own body and turned again by a CONTINUE. |
| Batch.Interpreter.RunBatch | src/pysqlbridge/catalog.py:1510-1667 | A batch as its client is sent it, and the transactions closed where what it came to, an error it stopped at or the only thing it answered, rolls them back under the setting as it stands by then. |
| BatchControl.RunsInTurn | src/pysqlbridge/catalog.py:1669-1700 | Two runs of statements are the second run from where the first ends, unless the first is left or stopped. |
| BatchControl.UnchosenBranchIsIdle | src/pysqlbridge/catalog.py:1784-1803 | The branch an IF does not choose is idle whatever it holds, and the one it chooses answers what it answers from @@ROWCOUNT and @@ERROR at nought. |
| BatchControl.IfAnswersItsBranch | src/pysqlbridge/catalog.py:1784-1803 | IF 1 = 1 SELECT 1 ELSE SELECT 2 answers 1, and IF 1 = 2 the other. |
| BatchControl.LoopsCountUp | src/pysqlbridge/catalog.py:1970-2010 | WHILE @i < n counting up answers i, i + 1 and so on to n - 1, each turn in order, for all i and n, or is stopped at the bound having answered so far. |
| BatchControl.BehindALeaveIsIdle | src/pysqlbridge/catalog.py:1984-2010 | What stands behind a BREAK or CONTINUE in a body is idle. |
| BatchControl.BreakEndsTheLoop | src/pysqlbridge/catalog.py:2003-2010 | With a BREAK behind it the counting body runs once. |
| BatchControl.ContinueTurnsAgain | src/pysqlbridge/catalog.py:2003-2010 | With a CONTINUE behind it, and anything behind that, it runs as often as without. |
| BatchControl.UnraisedCatchIsIdle | src/pysqlbridge/catalog.py:1947-1951 | A CATCH is idle where its TRY does not fail. |
| BatchControl.FailedTryRunsItsCatch | src/pysqlbridge/catalog.py:1947-1968 | Where it fails what it answered stays, what stands behind is idle, and the CATCH reads what sent it there by ERROR_NUMBER() and @@ERROR both, and nothing is caught after. |
| BatchControl.WhatAnErrorLeaves | src/pysqlbridge/catalog.py:3280-3400 | Of a batch that answers, fails and would answer again: what is sent and whether the transaction is kept, for an error of each kind, with XACT_ABORT on and off. |
| BatchControl.ThrowEndsTheBatch | src/pysqlbridge/catalog.py:3415-3435 | A bare THROW raises again what its CATCH caught and ends the batch even where that error would not have. |
| BatchControl.CountIsOfTheLast | src/pysqlbridge/catalog.py:1669-1700 | @@ROWCOUNT is what the statement before answered, nought where it failed and nought once an IF has asked. |
| BatchControl.CountIsNoughtAfterTransactions | src/pysqlbridge/catalog.py:836-839 | @@ROWCOUNT is nought after a transaction statement that was not refused, and after SET XACT_ABORT. |
| BatchLaws.RunOnlyAnswers | src/pysqlbridge/catalog.py:1669-1700 | However a run ends, the answers gathered before it begin those after it. |
| BatchLaws.RunInATry | src/pysqlbridge/catalog.py:1930-1951 | A run inside a TRY, however deep, never leaves an error among the answers. |
| BatchLaws.RunLeavesCaught | src/pysqlbridge/catalog.py:1952-1968 | A run leaves nothing caught that was not before it, through nested TRYs and errors raised inside a CATCH. |
| BatchLaws.NoneEscapes | src/pysqlbridge/catalog.py:3539-3548 | Where every BREAK and CONTINUE stands under some WHILE, no run ends with one escaping, however deep in blocks, IFs, TRYs and CATCHes. |
| BatchLaws.LoopsAreLeft | src/pysqlbridge/catalog.py:1970-2010 | A WHILE never ends with its body's BREAK or CONTINUE still on its way. |
| BatchLaws.RunUnderTheSetting | src/pysqlbridge/catalog.py:3323-3358 | From states differing only in XACT_ABORT a run ends alike, or with it on stops at an error the other carries past, what it answered followed by that error beginning what the other answered. |
| BatchLaws.StatementUnderTheSetting | src/pysqlbridge/catalog.py:1702-1928 | The same of one statement, inside a TRY ending alike always. |
| BatchLaws.BatchesStopAtEnders | src/pysqlbridge/catalog.py:1617-1667 | A batch that stops at an error stops at one it does not run on past. |
| BatchLaws.BatchUnderTheSetting | src/pysqlbridge/catalog.py:1617-1667 | What is sent with the setting on begins what is sent with it off, exactly unless the other batch goes on to an error that throws away what answered. |
| BatchLaws.LaterErrorHidesTheFirst | src/pysqlbridge/catalog.py:1617-1667 | A divide by zero and then a missing column: the first alone is sent with the setting on and the second alone with it off. |
| BatchLaws.RunningOnKeepsTransactions | src/pysqlbridge/catalog.py:1510-1665 | A batch that runs to its end keeps its transactions, exactly unless all it answered is one error the setting stops at, which it ran on past with the setting off, and it ends with the setting on. |
| BatchLaws.LoneErrorLosesTheTransaction | src/pysqlbridge/catalog.py:1510-1665 | In an open transaction, a divide by zero and then SET XACT_ABORT ON loses it. |
| BatchLaws.OnlyTheseLeaveAnError | src/pysqlbridge/catalog.py:3516-3536 | A run that goes to its end leaves @@ERROR other than nought exactly where its last statement failed and was run on past, or is a DECLARE with no value after one that left it so, an IF whose branch did, or a WHILE with a BREAK whose body did. |
| BatchLaws.UnbrokenLoopsEndAtNought | src/pysqlbridge/catalog.py:1970-2010 | A WHILE with no BREAK of its own that ends leaves @@ERROR at nought, whatever failed in its body. |
| BatchLaws.BlockedCommitIsCleared | src/pysqlbridge/catalog.py:1806-1811 | With the setting off, a COMMIT with nothing open leaves 3902 behind, and inside a block nought. |
| TryMatcher.UpTo | src/pysqlbridge/catalog.py:3134-3161 | The text before the closer that closes all that was opened and nothing else, and where that closer ended; all the rest where there is none. |
| TryMatcher.OneCloser | src/pysqlbridge/catalog.py:3134-3161 | Only one closer is that one. |
| TryMatcher.ReadTry | src/pysqlbridge/catalog.py:1942-1945 | A TRY's body and its CATCH's, read with the matcher. |
| TryMatcher.TryIsReadBack | src/pysqlbridge/catalog.py:1942-1945 | However deep TRYs and CATCHes stand in one another, a written TRY gives back its own body and its own CATCH, whatever stands around it. |
| TryMatcher.NotCountingCutsNestedTries | src/pysqlbridge/catalog.py:3134-3145 | Stopping at the first closer reads a body whole exactly where it holds no TRY of its own. |
| Paging.FindStride | src/pysqlbridge/http_source.py:425-459 | The loop finds the one parameter that went up between two addresses of one path, and by how much, where there is exactly one. |
| Paging.StrideIsTheOneThatGrew | src/pysqlbridge/http_source.py:425-459 | There is a stride exactly where one parameter alone is a number in both addresses of one path and grew, and it is by how much. |
| Paging.StrideIsFoundAgain | src/pysqlbridge/http_source.py:217-224 | The stride between an address and the same advanced by one page is the one it was advanced by, exactly where it carried the parameter as a number. |
| Paging.Reader.ReadOn | src/pysqlbridge/http_source.py:908-945 | The whole read after the first page: records, pages, "more" and requests are those of its specification. |
| Paging.Reader.ReadAhead | src/pysqlbridge/http_source.py:947-990 | The batched part of it, for any server. |
| Paging.Reader.TakeEach | src/pysqlbridge/http_source.py:981-987 | A batch's answers are taken in the order they were asked for, until one ends the collection. |
| Collections.PositionsReadWhole | src/pysqlbridge/http_source.py:483-490 | A collection paged by position, each page reporting its own and the server behind the last answering an empty page or the last over again, is read whole by following positions. |
| Collections.PositionsReadWholeAhead | src/pysqlbridge/http_source.py:908-990 | And by the whole read, its later pages asked for ahead. |
| Collections.LinksReadWhole | src/pysqlbridge/http_source.py:779-795 | A collection paged by links is read whole by following them wherever they lead, whatever positions its pages report besides: of a link and a position the link wins. |
| Collections.LinksReadWholeAhead | src/pysqlbridge/http_source.py:908-990 | And by the whole read, where its links move one parameter by a fixed step. |
| PagingLaws.LinksReadThisFar | src/pysqlbridge/http_source.py:925-945 | Following links reads pages until a bound, the end or a failure, raises exactly at a failure, and says there is more exactly where a bound stopped it with a page still linked to. |
| PagingLaws.AheadReadsWholeBatches | src/pysqlbridge/http_source.py:961-990 | Reading ahead reads to the first end of a batch at or past where a bound stops the links, or before that to a failure or the end; it says there is more exactly at a bound with a page still linked to, the one on rows only counting at the end of a batch. |
| PagingLaws.AheadIsFollowingTheLinks | src/pysqlbridge/http_source.py:947-990 | Reading ahead that does not raise gives what following every link gives exactly where no request of the links fails and they are not stopped by their rows inside a batch; where one fails, the links raise and reading ahead says there is no more. |
| PagingLaws.BatchesEndInWorkers | src/pysqlbridge/http_source.py:963-970 | With no total declared, batches end after each page_workers pages and at the bound on pages. |
| PagingLaws.BatchesEndWithTheTotal | src/pysqlbridge/http_source.py:963-970 | With a right total and full pages they also end where the collection does. |
| PagingLaws.OnlyAFullCollectionStopsTheLinks | src/pysqlbridge/http_source.py:925-945 | A collection within max_rows stops the links by its rows only where it fills them exactly and its last page links on. |
| PagingLaws.FittingCollectionsReadAlike | src/pysqlbridge/http_source.py:908-990 | So within max_rows, with nothing failing, a whole read reads as the links do unless the collection fills them exactly and links on. |
| PagingLaws.AheadAsks | src/pysqlbridge/http_source.py:961-990 | Against any server reading ahead raises exactly where a page it asked for is misshapen, and asks for no more pages than are allowed. |
| PagingLaws.RequestsAreBounded | src/pysqlbridge/http_source.py:918-990 | Against any server a whole read makes at most max(1, max_pages) requests, those past the end counted. |
| PagingLaws.OpeningFollowsTheLinks | src/pysqlbridge/http_source.py:918-945 | The serial part is following the links, and turns to reading ahead after one page or two, with the stride they advance by and the collection still ahead of it. |
| PagingLaws.ReadingAheadIsFollowingLinks | src/pysqlbridge/http_source.py:908-990 | For a collection with steady links and right totals, a whole read gives the records, page count and "more" of following every link exactly where, past the pages read one by one, no request of the links fails and they are not stopped by their rows inside a batch; unless a page it asked for is misshapen, where it raises. |
| PagingLaws.AheadReadsAPrefix | src/pysqlbridge/http_source.py:961-990 | However the bounds fall and whichever pages fail, the records are a gap-free prefix of the collection; "more" only at a bound and, where the last page links no further, with pages left; without it the whole where nothing failed. |
| PagingLaws.ReadPagesReadsAPrefix | src/pysqlbridge/http_source.py:908-990 | The same of the whole read from its first page. |
| PagingLaws.RowsAreBoundedBetweenBatches | src/pysqlbridge/http_source.py:867-990 | Reading ahead serves what following the links serves, more rows than allowed refusing the table, exactly where no request of the links fails and they are not stopped inside a batch with just as many rows as allowed. |
| PagingLaws.FullCollectionReadsApart | src/pysqlbridge/http_source.py:961-990 | Three rows of at most three, each page linking on: the links say there is more and reading ahead that there is not. |
| PagingLaws.FailureIsReadAsTheEnd | src/pysqlbridge/http_source.py:992-1008 | A page in reach fails: the links raise and reading ahead ends before it. |
| PagingLaws.MisshapenPastTheEndRaises | src/pysqlbridge/http_source.py:961-978 | Two rows, and a misshapen document a few pages past them: the links read both and reading ahead raises. |
| PagingLaws.ServedByTheLinksAndRefused | src/pysqlbridge/http_source.py:867-990 | Four rows of at most three: the links serve three and reading ahead is refused. |
| Refresh.OneFetchesAtATime | src/pysqlbridge/http_source.py:641-669 | In every run whatever, two threads are never fetching at once. |
| RefreshHistory.CachedIsTheLastWritten | src/pysqlbridge/http_source.py:671-685 | In every run the cached table is the one handed to the thread that last wrote it: what its fetch gave, what it was begun with to prime, or none where it was begun to invalidate. |
| RefreshHistory.StampIsTheLastWritten | src/pysqlbridge/http_source.py:833-836 | The stamp is the clock at the moment it was last written, the clock being the time that passed. |
| RefreshHistory.TableComesWithItsStamp | src/pysqlbridge/http_source.py:833-836 | Table and stamp were last written by one thread, outside the two steps in which a thread holding the lock writes the one and then the other. |
| RefreshHistory.PrimedUnderTheOldStamp | src/pysqlbridge/http_source.py:683-685 | Between those steps a table primed over a fresh one is served under the stamp of the one before. |
| RefreshHistory.LoadsAnswer | src/pysqlbridge/http_source.py:647-669 | In every run a load that ends answers a table that was cached at some moment since it was begun, or its own fetch failed. |
| RefreshHistory.FreshIsServedAtOnce | src/pysqlbridge/http_source.py:641-657 | A table within its time is answered in three steps, no lock taken and nothing shared changed. |
| Refresh.FlagStaysRight | src/pysqlbridge/http_source.py:833-845 | Every step of every thread keeps the flag up exactly while one background refresh is outstanding, except a foreground refresh clearing another's. |
| Refresh.OneRefreshAtATime | src/pysqlbridge/http_source.py:687-714 | From a table being served and without invalidations, in every interleaving of loads, primings and refreshes that succeed or fail, the flag is up exactly while a refresh is outstanding, and there is never a second. |
| Refresh.DueStaysDue | src/pysqlbridge/http_source.py:687-714 | Every step but an invalidation keeps the table past its time while a refresh is awaited, except the stamping of a priming meanwhile. |
| Refresh.FetchesWhatIsDue | src/pysqlbridge/http_source.py:687-714 | In a run without invalidations that holds at every moment exactly where no step is such a stamping, and then a refresh that was let through begins its fetch over a table past its time. |
| Refresh.TwoRefreshesAfterAColdStart | src/pysqlbridge/http_source.py:647-669 | From a source nobody has asked for, a run without primings or invalidations leaves two background refreshes outstanding. |
| Refresh.PrimingLeavesANeedlessFetch | src/pysqlbridge/http_source.py:671-685 | A refresh let through may begin its fetch over a table a priming just seeded. |
| Crawl.RequestsAreClaims | src/pysqlbridge/discover.py:411-424 | Under any interleaving of claims, requests are as many as addresses claimed, within the budget, and never two for one resource. |
| CrawlLaws.OneResource | src/pysqlbridge/discover.py:216-227 | Two addresses are one resource exactly where scheme and host are the same however cased, the paths but for the slashes they end in, and the queries to the letter. |
| CrawlLaws.LinksAreThose | src/pysqlbridge/discover.py:308-343 | A document links to an address exactly where it stands in it, at most five objects deep. |
| Crawl.UnspentClaimsAll | src/pysqlbridge/discover.py:457-468 | Where the budget is not spent every address asked for is claimed, and what is newly claimed was granted. |
| Crawl.WithinTheCapTakesAll | src/pysqlbridge/discover.py:308-343 | A harvest takes every link of a document exactly where none of its objects that hold links is entered with more than 200 taken, and otherwise fewer. |
| Crawl.EachLinkIsHarvested | src/pysqlbridge/discover.py:529-540 | The same of every page of a level. |
| Crawl.BeyondTheCapLinksAreLost | src/pysqlbridge/discover.py:318-319 | A level past the cap takes nothing from the pages after. |
| Crawl.WalkMissesAPage | src/pysqlbridge/discover.py:512-547 | A walk of a site of five pages, one linking 201 times to another, ends under its budget and leaves a page two links from the base unclaimed. |
| Crawl.UnvisitedCoversAll | src/pysqlbridge/discover.py:568-579 | Of every resource harvested and not claimed, one address goes on to the next level. |
| CrawlLaws.UnvisitedInOrder | src/pysqlbridge/discover.py:568-579 | The next level holds the first address of each resource not claimed yet, collections before records and among either the shorter first. |
| Crawl.WalkIsBudgeted | src/pysqlbridge/discover.py:512-547 | The walk claims as many as it asks and never more than its budget. |
| Crawl.LinksAreClaimed | src/pysqlbridge/discover.py:512-547 | In a walk that ends under its budget and, before its last level, enters no object that holds links with more than 200 taken, what a claimed page links to is claimed by the level after its own. |
| Crawl.ReachableIsClaimed | src/pysqlbridge/discover.py:512-547 | Such a walk has claimed every address reachable from the base by at most max_depth links through readable documents, on a path avoiding what was claimed before. |
| CrawlLaws.FromTheBase | src/pysqlbridge/discover.py:512-547 | A walk claims nothing but what at most max_depth links lead to from the base. |
| Crawl.Crawler.ClaimOne | src/pysqlbridge/discover.py:411-424 | One claim reserves a request or refuses, and keeps the count. |
| Crawl.Crawler.ClaimWanted | src/pysqlbridge/discover.py:457-468 | A level's claims in turn, and which were granted. |
| Crawl.Crawler.FindUnvisited | src/pysqlbridge/discover.py:568-579 | The loop that drops repeats and what is claimed, and the order of what is left. |
| Crawl.Crawler.Run | src/pysqlbridge/discover.py:512-547 | The loop over levels leaves the claims of the walk's specification. |

## Left out

- JoinAnswers.JoinTables: which of two refusals an ON makes first is one refusal here.
- JoinExactly.EqualitiesAreHashedRightlyExactly: for ONs of column equalities alone, over columns of one kind; beside other conditions, which may be true of no row there is, only `HashedJoinIsTheJoin` is stated.
- Ties.OneKeyTiesExactly: for one computed key; of several of which some compute, only `TopWithTies` is stated, since one key may settle what another reads. An aggregate inside a key is a reference to what it says, its spacing as written.
- CorrelatedExists.LookingUpIsRunning: where the run is refused nothing is said of the lookup, which may answer; the list of an EXISTS counts only by whether it aggregates, so what evaluating it, sorting by it or DISTINCT in it could refuse is not modelled, nor an inner select with no FROM.
- Spread.OnePassIsTwoPass: over exact reals, so rounding and what the clamp is there for are not modelled.
- Grouping.GroupFiguresAddUp: integer columns only; floats and decimals add up to within rounding and are not modelled.
- BatchLaws.RunUnderTheSetting: for trees that do not set XACT_ABORT; EXEC of text is not modelled, and across it the property does not hold.
- Refresh.OneRefreshAtATime: schema() takes the same lock and is not modelled; reads of several fields outside the lock are separate steps except that the clock is read before the stamp.
- PagingLaws.ReadingAheadIsFollowingLinks: for servers that declare no wrong total and link by a fixed step; elsewhere only what `AheadAsks` and `RequestsAreBounded` say is promised.
- Crawl.ReachableIsClaimed: asks that addresses of one resource link to the same places; what loses a link to the cap is stated exactly for one harvest and one level, and for a walk as what suffices, since a link lost may be met again.
- Parsing of SQL text: statements, conditions and selects are trees, and the TRY matcher reads words already told apart from quoted text.
- EXEC of text, sp_executesql, OUTPUT parameters and what they do to a session; DECLARE of several variables at once; temporary tables beyond the store a statement may change.
- DISTINCT and window functions over a select's own list, ROLLUP-like lists, STRING_AGG's order, and the columns and types a select declares.
- Dates, decimals, bits and other declared kinds, implicit conversion across the branches of a set operator, and case folding beyond the letters A to Z.
- A TOP, OFFSET or FETCH below nought.
- Message wording and the error catalogue, beyond the numbers that steer a batch.
- Real HTTP, redirects, mirrors raced against each other, credentials and TLS: a fetch is a function of its address.
- Repeated and blank query parameters, and the order they are written in: an address holds its query as a dictionary.
- The description document and guessed names of a crawl, whose claims are among those made before or after the walk; turning documents into tables.
- Child tables, `schema()` caching and configuration.
