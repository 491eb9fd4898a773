# goiardi: verified model

goiardi is a Chef server.  This project models its in-memory cores in Dafny and proves what they promise.

- **Graphs.**  `Tarjan` is the search for strongly connected components with its shared account; `Traversal` the
  explicit-stack walk, reachability and degrees; `Depgraph` validation and constraint checking.  `Walk` is the concurrent
  dependency-first walk as a protocol: the spawning loop, one goroutine and one close-channel per noun, the error channel,
  the watcher and the drainer, each moving one step at a time, in any interleaving; `WalkRuns` is what all its runs promise,
  `WalkOrder` what is left of the order once a callback has failed.
- **Signed headers.**  `NumberTheory` proves Fermat's little theorem; `Rsa` the exponentiation by the Chinese remainder
  theorem for any number of primes (section 5.2.1 of RFC 8017); `Bytes` big-endian numbers and base64; `Signing` the padding,
  the chunking into numbered headers, the reassembly and the way back.
- **Cookbooks.**  `Strings` is the in-place removal of duplicates, `Cookbooks` the store of versions and the deletion of
  files no version uses any more, `Versions` the version order, constraints and the scans that stop early.
- **Search.**  `SearchChain` is the doubly linked chain the parser's actions build, `SearchEval` its evaluation over running
  results against set algebra, `SearchRun` the same on the linked chain, `SearchShape` a query's links operand by operand,
  `SearchQuery` the way from a query to its answer.  `Sql`, `PgClauses`, `PgSearch` and `PgStatement` are the compilation
  to one parameterised SQL statement; `SqlReading` reads a condition as SQL, `PgMeaning` is what a query asks of the rows,
  and `PgReading` proves the two the same.
- **Stores.**  `Datastore` is the node statuses' two maps against per-node histories, `NodeStatus` the purge by age, `Shovey`
  the chunks of a run's output under rendered keys.

Objects the program updates in place are classes, loops are loops, and each is proved against a specification on values.
Behaviour that is not what one would expect is kept as it is and stated with the exact condition under which the expected
property holds: groups after AND (`SearchEval.GroupingHoldsExactly`), failures two steps away
(`WalkRuns.StopsExactlyWhenListed`), the order after failures (`WalkOrder.InOrderExactlyWhenListed`), ranges without
bounds (`PgSearch.ArgumentsMatchExactly`), ranges written from the greater end (`PgClauses.CompiledAsWrittenExactly`),
lone negated terms (`PgStatement.TablesDeclaredExactly`), pessimistic constraints at the largest number
(`Versions.RightExactlyWithoutOverflow`), negated `*:*` within results (`SearchEval.AgreesUnlessNegatedAll`), the
version order (`Versions.OrdersExactly`), queries whose SQL cannot be read (`PgReading.MeansWhatItSays`), keys with
underscores (`Shovey.CollideExactly`) and the files of dropped cookbooks (`Cookbooks.RemovedExactlyWhenUnused`).

`dafny verify dfyconfig.toml` checks the whole project.

## Model

| member | source | states |
|---|---|---|
| Tarjan.SccAcct.Visit | digraph/tarjan.go:14-20 | numbers a node with the next index and pushes it; every invariant of the search is kept by `VisitKeepsInv` |
| Tarjan.SccAcct.Push | digraph/tarjan.go:23-25 | the node becomes the top of the stack |
| Tarjan.SccAcct.Pop | digraph/tarjan.go:28-36 | takes off exactly the top, or nothing from an empty stack |
| Tarjan.SccAcct.InStack | digraph/tarjan.go:39-46 | true exactly for nodes on the stack |
| Tarjan.VisitKeepsInv | digraph/tarjan.go:68-70 | numbering a new node keeps the search invariant: the stack is ordered by index, each entry reaches the next running one, finished nodes have no edge back |
| Tarjan.TopIsScc | digraph/tarjan.go:87-101 | when the low-link equals a node's own index, the nodes above it on the stack are mutually reachable and no other node is mutually reachable with them |
| Tarjan.FinishInner | digraph/tarjan.go:73-89 | a node that does not close a component stays on the stack with a path back to a smaller index |
| Tarjan.FinishRoot | digraph/tarjan.go:87-103 | popping a component keeps the invariant and emits a maximal component |
| Tarjan.SccAcct.PopComponent | digraph/tarjan.go:89-101 | the pop loop removes exactly the nodes down to the given one and emits them, or drops a single one under `excludeSingle` |
| Tarjan.SccAcct.StronglyConnected | digraph/tarjan.go:68-104 | visits everything not yet seen that the node reaches, returns its low-link, and leaves the invariant in place |
| Tarjan.StackEmpty | digraph/tarjan.go:59-65 | between top-level calls the stack is empty |
| Tarjan.NeverReachesLater | digraph/tarjan.go:53-66 | no node of an emitted component reaches one emitted later: components come in reverse topological order |
| Tarjan.AnswerIsRight | digraph/tarjan.go:53-66 | the collected components are exactly the strongly connected components of what the input reaches |
| Tarjan.StronglyConnectedComponents | digraph/tarjan.go:53-66 | for every finite graph: each result is mutually reachable and maximal, results are disjoint, cover every reachable node (those in components of two or more under `excludeSingle`), and come in reverse topological order; it terminates |
| Traversal.PreorderOnce | digraph/util.go:7-33 | recursive preorder lists each node once and none that was seen before |
| Traversal.PreorderVisits | digraph/util.go:7-33 | recursive preorder lists exactly the nodes reachable through nodes whose callback lets the walk descend |
| Traversal.WalkStep | digraph/util.go:14-31 | popping one node and pushing its tails in reverse is one step of recursive preorder |
| Traversal.DepthFirstWalk | digraph/util.go:7-33 | the explicit-stack walk visits the same nodes in the same order as recursive preorder, pruning below nodes whose callback returns false |
| Traversal.Unreachable | digraph/util.go:82-113 | returns exactly the listed nodes the start does not reach, in list order |
| Traversal.InDegree | digraph/util.go:48-59 | counts the edges into every listed node |
| Traversal.FilterDegree | digraph/util.go:37-45 | lists exactly the nodes of the given degree, each once |
| Traversal.Sources | digraph/util.go:76-78 | lists exactly the nodes no listed node has an edge to |
| Depgraph.RootReachesAll | depgraph/graph.go:200-253 | in an acyclic closed graph with a single source that source reaches every noun |
| Depgraph.NoneUnreached | depgraph/graph.go:218-224 | so in such a graph the unreachable check finds nothing |
| Depgraph.CyclesFound | depgraph/graph.go:226-246 | a graph is cyclic exactly when a component of two or more nouns or a self-loop is found |
| Depgraph.SourcesAreRoots | depgraph/graph.go:210-216 | one source is found exactly when there is a single noun without dependents |
| Depgraph.SelfLoops | depgraph/graph.go:239-246 | reports every noun that depends on itself, each as a cycle of one, and nothing else |
| Depgraph.DepGraph.Validate | depgraph/graph.go:200-253 | returns nil if and only if there is exactly one source and no cycle or self-loop; then `Root` is that source and reaches every noun; otherwise each kind of error is reported exactly when it is there, and every cycle and self-loop is listed |
| Depgraph.CheckNoun | depgraph/graph.go:115-131 | reports each unsatisfied constraint of a noun's dependencies once and nothing else |
| Depgraph.DepGraph.CheckConstraints | depgraph/graph.go:103-139 | one violation per unsatisfied constraint occurrence of a reachable noun, nil if and only if there is none, and an error before validation |
| Walk.StepKeeps | depgraph/graph.go:260-359 | every step of every goroutine keeps the protocol invariant |
| Walk.RunKeeps | depgraph/graph.go:260-359 | the invariant holds in every state of every interleaving |
| WalkRuns.WalkIsOrdered | depgraph/graph.go:294-328 | while no callback has failed, a callback begins only after those of all its transitive dependencies have ended |
| WalkOrder.DirectOrderAlwaysHolds | depgraph/graph.go:301-328 | in every run, failures or not: when a callback begins, that of each direct dependency has ended without error, or never begins at all |
| WalkOrder.InOrderExactlyWhenListed | depgraph/graph.go:301-328 | on an acyclic closed graph: in every run, when a callback begins, those of all transitive dependencies have ended without error or never begin, if and only if every reachable noun lists its transitive dependencies directly |
| WalkOrder.TransitiveOrderIsLost | depgraph/graph.go:307-318 | an input on which the order is lost: a run in which, after a failure, a callback begins while that of a transitive dependency is still going on |
| WalkRuns.WalkCallsOnce | depgraph/graph.go:320-328 | in every interleaving each callback begins and ends at most once |
| WalkRuns.WalkCallsExactly | depgraph/graph.go:260-359 | when the walk has ended, the nouns called back are exactly the reachable ones without a directly failed dependency |
| WalkRuns.WalkNeverSendsOnClosed | depgraph/graph.go:341-358 | once `errCh` is closed no goroutine can still send on it: all have finished |
| WalkRuns.WalkReportsFailure | depgraph/graph.go:331-358 | the walk returns nil if and only if no callback failed, and otherwise an error of a callback that did fail |
| WalkRuns.WalkSkipsFailed | depgraph/graph.go:307-318 | a noun is not called back once a direct dependency's callback has failed |
| WalkRuns.WalkNeverDeadlocks | depgraph/graph.go:260-359 | on an acyclic closed graph some goroutine can always move until the walk has returned and all have finished |
| WalkRuns.StepShrinks | depgraph/graph.go:260-359 | every step decreases a measure, so no interleaving goes on for ever |
| WalkRuns.WalkEnds | depgraph/graph.go:260-359 | the length of every run is bounded by the measure of its first state |
| WalkRuns.WalkCompletes | depgraph/graph.go:260-359 | every run can be extended to one in which everything has finished |
| WalkRuns.MissedFailure | depgraph/graph.go:312-317 | a noun two steps above a failed one, and not depending on it directly, is called back in some complete run: a skipped noun is not itself recorded as failed |
| WalkRuns.StopsExactlyWhenListed | depgraph/graph.go:312-317 | no noun above a failed one is ever called back if and only if every noun lists its transitive dependencies directly |
| WalkRuns.ChainMissesFailure | depgraph/graph.go:312-317 | a concrete chain of three nouns on which the failure of the last does not stop the first |
| NumberTheory.Fermat | authentication/go-chef/chef/authentication.go:46-73 | for a prime p, a^p is congruent to a; proved by the binomial theorem, so exponents may be reduced modulo p - 1 as the precomputed values are |
| NumberTheory.ExponentReduced | authentication/go-chef/chef/authentication.go:49-51 | reducing an exponent modulo p - 1 keeps the power modulo p |
| Rsa.CrtUnique | authentication/go-chef/chef/authentication.go:46-73 | two values below the product of distinct primes that agree modulo each prime are equal |
| Rsa.FirstTwo | authentication/go-chef/chef/authentication.go:49-59 | the step for the first two primes gives a value below their product with both residues, also when the difference is still negative after one addition |
| Rsa.NextPrime | authentication/go-chef/chef/authentication.go:61-72 | each further prime extends the value to one below the longer product with all residues so far |
| Rsa.CrtIsDirect | authentication/go-chef/chef/authentication.go:44-73 | a value below N with every per-prime residue of c^D is Exp(c, D, N) |
| Rsa.PrivateExp | authentication/go-chef/chef/authentication.go:44-73 | for any number of primes the precomputed branch returns exactly what the direct branch does |
| Rsa.Inverse | chefcrypto/chefcrypto.go:169-178 | raising to D and then to E modulo N gives back every value below N |
| Signing.Pad | authentication/go-chef/chef/authentication.go:24-43 | fills the buffer with a zero, block type 01, filler bytes, a zero and the data (section 8.1 of RFC 2313) |
| Signing.BlockBelow | authentication/go-chef/chef/authentication.go:24-43 | the padded block is positive and below the modulus, and its bytes come back without the leading zero |
| Signing.KeyBytesAre | authentication/go-chef/chef/authentication.go:24-26 | the block is as long as the modulus written in bytes |
| Signing.PrivateEncrypt | authentication/go-chef/chef/authentication.go:23-82 | refuses exactly the data longer than k - 11, and otherwise returns the bytes of the padded block raised to D; the early return for too large a block never fires |
| Bytes.FromToBytes | authentication/go-chef/chef/authentication.go:44-82 | a number's big-endian bytes stand for that number |
| Bytes.BigEndian | authentication/go-chef/chef/authentication.go:45 | the first byte counts most |
| Bytes.Base64RoundTrip | chefcrypto/chefcrypto.go:119-122 | decoding base64 text gives back the bytes that were encoded |
| Bytes.SameNumber | authentication/go-chef/chef/authentication.go:95 | three bytes are written as the four base64 digits of the same number |
| Bytes.DecodesExactly | chefcrypto/chefcrypto.go:119-122 | text can be decoded if and only if, newlines aside, it is groups of four digits with at most the last one or two signs padding |
| Signing.Base64BlockEncode | authentication/go-chef/chef/authentication.go:94-122 | the chunks joined are the base64 text; all are of the given size but the last, which is not empty and no longer |
| Signing.NoGaps | authentication/authentication.go:235-245 | as many numbers as their count, none above it and none below 1, are the numbers 1 up to the count |
| Signing.NumberedExactly | authentication/authentication.go:217-219 | exactly the names that start with `X-Ops-Authorization-`, in any letter case, and a digit carry a number |
| Signing.NumberIsWritten | authentication/authentication.go:217-225 | it is the number written there, whatever follows its digits |
| Signing.AssembleSignedHeader | authentication/authentication.go:215-248 | finds no headers exactly when none is named `X-Ops-Authorization-` and a digit, in any letter case; from headers numbered 1 to n, among any others, it returns their values joined in number order; otherwise a gap and number 0, on which the program panics, are told apart |
| Signing.Unpadded | chefcrypto/chefcrypto.go:127-138 | what is left of a padded block after skipping the filler is the data |
| Signing.HeaderDecrypt | chefcrypto/chefcrypto.go:110-139 | fails exactly on text that is not base64, and otherwise strips the first filler-zero pair of the value raised to E |
| Signing.SetHeaders | authentication/go-chef/chef/http.go:273-285 | each chunk stands in the header `X-Ops-Authorization-` with its number, counted from 1; every other header keeps its value, and none is added |
| Signing.CarriedText | authentication/authentication.go:215-248 | reassembling gives the joined chunks whatever order the headers are met in |
| Signing.SignAndCheck | authentication/go-chef/chef/authentication.go:23-122 | padding, exponentiating, chunking into headers, reassembling, exponentiating back and unpadding is the identity on all data of at most k - 11 bytes and every valid key |
| Strings.DelTwoPosElements | util/strings.go:139-142 | removes the given stretch in place and nothing else |
| Strings.DelSliceElement | util/strings.go:135-137 | removes one element in place |
| Strings.RemoveDupStrings | util/strings.go:104-132 | in place, on any slice, every run of equal neighbours becomes one; the shifting loop refines that |
| Strings.CollapseSorted | util/strings.go:104-132 | on a sorted slice the result is strictly sorted |
| Strings.CollapseKeepsElements | util/strings.go:104-132 | the set of elements stays the same |
| Strings.LessExactly | cookbook/cookbook.go:1053 | strings are ordered by their first difference, and a beginning comes before what it begins |
| Cookbooks.FileHashes | cookbook/cookbook.go:1038-1057 | strictly sorted, and exactly the hashes the files of the nine divisions have |
| Cookbooks.HashesAreMentioned | cookbook/cookbook.go:1038-1057 | a hash belongs to a version if and only if a file of one of its nine divisions has it, or has none and it is empty |
| Cookbooks.Strike | cookbook/cookbook.go:823-837 | removes one hash in place; the early exit misses none because the list is strictly sorted |
| Cookbooks.StrikeVersion | cookbook/cookbook.go:821-838 | removes exactly the hashes one version uses |
| Cookbooks.StrikeCookbook | cookbook/cookbook.go:820-839 | removes exactly the hashes the versions of one cookbook use |
| Cookbooks.Server.DeleteHashes | cookbook/cookbook.go:808-847 | deletes from the file store exactly the given hashes that no version seen uses |
| Cookbooks.Server.StoreFile | filestore/filestore.go:161-190 | a stored file is there and the cookbooks are as they were |
| Cookbooks.ValidateDivision | util/validations.go:141-204 | keeps the entries with a checksum, in order, or refuses the division exactly when a checksum is not stored |
| Cookbooks.ValidatedIsStored | util/validations.go:141-204 | of a version that passes, every hash is that of a stored file |
| Cookbooks.Server.NewCookbook | cookbook/cookbook.go:101-129 | a name of letters, digits, underscores, dots and dashes gives a cookbook without versions, also over an existing one of that name; the files stay |
| Cookbooks.Server.DeleteCookbook | cookbook/cookbook.go:248-260 | the cookbook is gone with its versions; the files stay |
| Cookbooks.Server.NewVersion | cookbook/cookbook.go:714-740 | an upload that validates becomes a version, without the entries that have no checksum, unless the version exists or is called `_latest`, which is a conflict; one that names a checksum that is not stored is refused; a refused one changes nothing |
| Cookbooks.Server.UpdateVersion | cookbook/cookbook.go:877-1024 | an upload that validates replaces the version unless it is frozen without force; one that names a checksum that is not stored is refused; a refused one changes nothing; a file leaves the store exactly when no file of any version's divisions has its hash any more |
| Cookbooks.Server.DeleteVersion | cookbook/cookbook.go:850-874 | the version is gone, and a file leaves the store exactly when no file of any version's divisions has its hash any more; a missing version is reported; `_latest` reports success and deletes nothing |
| Cookbooks.OthersStay | cookbook/cookbook.go:714-874 | an operation leaves every version it is not about there, or not there, and as it was |
| Cookbooks.UploadIsStored | cookbook/cookbook.go:948-1003 | an accepted upload is stored division by division without the entries that have no checksum, and a version once frozen stays frozen |
| Cookbooks.FrozenStays | cookbook/cookbook.go:877-883 | a frozen version is replaced by a forced update only |
| Cookbooks.RemovedExactlyWhenUnused | cookbook/cookbook.go:808-874 | an operation removes from the store exactly the files whose last use it takes away, if and only if it does not drop or remake a cookbook that alone uses a stored file: that file is left behind |
| Cookbooks.DroppedLeavesFile | cookbook/cookbook.go:248-260 | a concrete server on which a dropped cookbook leaves its file behind |
| Cookbooks.StepStaysBacked | cookbook/cookbook.go:808-1021 | if every hash a file of some version's divisions has is in the store, that is so after any operation |
| Cookbooks.RunStaysBacked | cookbook/cookbook.go:808-1021 | so it is after every run of stores, creations, updates, deletions and dropped or remade cookbooks |
| Cookbooks.AlwaysBacked | cookbook/cookbook.go:808-1021 | from an empty server on, over every run, every hash a file of some version's divisions has is in the store |
| Versions.CompareVersions | cookbook/versioning.go:174-209 | the loop over the parts decides the order on version strings |
| Versions.LessIsBefore | cookbook/versioning.go:174-209 | on canonical versions it is the order by major, minor and patch number |
| Versions.StrictTotalOrder | cookbook/versioning.go:174-209 | on canonical versions it is irreflexive, transitive and total |
| Versions.NotAnOrderElsewhere | cookbook/versioning.go:191-195 | an input on which it is no order: 1.0 and 01.0 each come before the other |
| Versions.LessByNumbers | cookbook/versioning.go:174-209 | any two strings are compared by their leading three numbers, except that of different strings with the same one or two numbers each comes before the other |
| Versions.SignedNumbers | cookbook/versioning.go:196-204 | a part may have a sign, and is cut off at the ends of an int |
| Versions.NotNumbers | cookbook/versioning.go:196-204 | a part that is no number counts as 0 |
| Versions.BothWaysExactly | cookbook/versioning.go:191-209 | two strings come before each other if and only if they differ and have the same numbers, fewer than three |
| Versions.NeitherWayExactly | cookbook/versioning.go:191-209 | neither comes before the other if and only if they are equal or have the same three numbers |
| Versions.TransitiveExactly | cookbook/versioning.go:174-209 | along two comparisons the outer one holds if and only if its strings differ |
| Versions.OrdersExactly | cookbook/versioning.go:174-209 | the comparison is a strict total order on a set of strings if and only if no two of them have the same numbers |
| Versions.CheckIsRight | cookbook/versioning.go:215-276 | without overflow each of the operators is accepted exactly when it is satisfied, and a break means no smaller version satisfies it |
| Versions.OperatorLaws | cookbook/versioning.go:211-276 | the operators among each other, and that a greater number is later |
| Versions.PessimisticOverflow | cookbook/versioning.go:251-272 | at the largest part the pessimistic operator refuses its own bound, because the increment wraps around |
| Versions.RightExactlyWithoutOverflow | cookbook/versioning.go:215-276 | an operator is decided rightly for all versions if and only if its bound's incremented part does not overflow |
| Versions.SortedVersions | cookbook/cookbook.go:273-297 | all versions, each once, in descending order |
| Versions.OneDescendingOrder | cookbook/cookbook.go:273-297 | there is only one such list |
| Versions.BreakIsFinal | cookbook/cookbook.go:632-645 | after a break nothing further down the descending list satisfies the constraint |
| Versions.InfoVersions | cookbook/cookbook.go:626-653 | the scan that stops at a break yields exactly the first n satisfying versions, or all of them |
| Versions.ListedExactly | cookbook/cookbook.go:626-653 | what is listed is admitted, in descending order and no more than asked for; an admitted version is left out only if as many as asked for are listed and all come after it |
| Versions.InfoHashBase | cookbook/cookbook.go:588-653 | that list for the number asked for, one when nothing is said; nothing exactly for a constraint without exactly one blank |
| Versions.LatestVersion | cookbook/cookbook.go:307-316 | the greatest version |
| Versions.ParsesExactly | cookbook/cookbook.go:663-671 | a constraint can be read if and only if it has exactly one blank; then the operator stands before it and the version after it |
| Versions.LatestConstrained | cookbook/cookbook.go:657-680 | for an operator, a blank and a version: the greatest version that satisfies it, or nothing when there is none; nothing for a malformed constraint or an unknown operator, and the greatest version of all for no constraint |
| SearchChain.Token.AddOp | search/parse.go:626-628 | sets the operator of the last link and keeps the chain |
| SearchChain.Token.AddField | search/parse.go:630-632 | sets the field of the last link and keeps the chain |
| SearchChain.Token.AddTerm | search/parse.go:634-639 | a term goes to the open link or starts a new one |
| SearchChain.Token.AddTermOp | search/parse.go:641-646 | a term's operator goes to the open link or starts a new one |
| SearchChain.Token.TermToLatest | search/parse.go:648-650 | a range bound goes to the last link |
| SearchChain.Token.StartBasic | search/parse.go:652-666 | a new link is appended exactly when the last one is complete |
| SearchChain.Token.StartRange | search/parse.go:668-689 | a range link is always appended, negated after a NOT |
| SearchChain.Token.StartGrouped | search/parse.go:691-705 | a group link is appended exactly when the last one is complete |
| SearchChain.Token.SetCompleted | search/parse.go:707-709 | the last link is complete unless it is a NOT |
| SearchChain.Token.StartSubQuery | search/parse.go:711-726 | a start marker is appended exactly when the last link is complete |
| SearchChain.Token.EndSubQuery | search/parse.go:728-741 | an end marker is appended exactly when the last link is complete |
| SearchChain.Token.SetNotQuery | search/parse.go:743-756 | a NOT link is appended |
| SearchChain.BuildChain | search/parse.go:626-756 | after every sequence of actions that starts a link first, `next` and `prev` are each other's inverse, `QueryChain` reaches every link, `Latest` is the last, and the links hold what the actions describe |
| SearchEval.SearchCollection | indexer/file_index.go:281-319 | the loop over a collection keeps exactly the documents that match, or under NOT those that do not |
| SearchEval.MergeAnswers | search/parse.go:431-459 | a group of terms without required ones finds the documents that answer one of its terms |
| SearchEval.RequiredEndsGroup | search/parse.go:431-459 | a required term ends its group: it and the terms after it find nothing |
| SearchEval.WithoutField | search/parse.go:197-225 | a term without a field asks for text in the whole index, and for a field without a name in results |
| SearchEval.WithinIsIntersection | search/parse.go:197-225 | searching within results finds what a full search and an intersection would |
| SearchEval.AgreesUnlessNegatedAll | indexer/file_index.go:140-196 | searching within results agrees with the full search on all documents if and only if the term is not a negated *:* |
| SearchEval.ClosesItsGroup | search/search.go:234-262 | the end marker found for a subquery is the one right after the group it stands for, through any nesting |
| SearchEval.SearchIsSetAlgebra | search/search.go:175-232 | for every query of field terms, term groups, ranges, NOTs and nested groups in which groups after AND hold only ANDs, the results are the left-to-right unions and intersections of the documents answering each operand |
| SearchEval.AlgebraExactlyWhenFine | search/search.go:196-202 | on all answers of independent operands the code reads a query as set algebra if and only if every group after an AND holds only ANDs |
| SearchEval.GroupingHoldsExactly | search/search.go:196-202 | a query of independent terms gives set algebra on every index if and only if every group after an AND holds only ANDs |
| SearchEval.GroupAfterAndGoesWrong | search/search.go:196-202 | a concrete query and document on which a group with an OR after AND lets a wrong document in |
| SearchRun.ExtractSubQuery | search/search.go:234-262 | on any linked chain, whole or cut: returns the first link and the matching end marker, cuts the chain before it and changes nothing else; reports a subquery that is not closed, and the panic at a marker nothing follows |
| SearchRun.RunChain | search/search.go:175-232 | for every linked chain, whether its markers match or not: the loop, cutting subqueries out as it goes, ends in the result, error or panic that walking the chain's contents along its cuts ends in |
| SearchRun.EvaluatesInPlace | search/search.go:175-262 | where the markers match and no subquery is empty, cutting makes no difference: the outcome is what reading the links in place gives, and nothing outside is cut |
| SearchShape.Executes | search/search.go:175-232 | the links of every query evaluate without error, and to the same whatever the operators that nothing is written after |
| SearchQuery.ParsesAsWritten | search/search-parse.peg:7-51 | the actions the grammar calls on a query with terms, groups of terms and required terms, ranges, NOTs and parentheses build exactly the links it stands for, except for the operator of a range that is the last of its chain |
| SearchQuery.Answer | search/search.go:175-262 | parsing a query into a linked chain and running that chain ends without error or panic, and gives the documents set algebra does where groups after AND hold only ANDs |
| Sql.FillsBack | search/postgres_search.go:539-546 | numbering the places of a text and filling in the arguments puts every argument back where it was taken from |
| Sql.Numbered | search/postgres_search.go:539-546 | places get consecutive numbers, each once and in order |
| PgClauses.BuildBasicQuery | search/postgres_search.go:286-346 | the text and the arguments are those of the clause with its arguments in place, for every combination of empty field, star, wildcard and negation; what the clause means is `PgReading.BasicReads` |
| PgClauses.BuildGroupedQuery | search/postgres_search.go:348-409 | the loop's text and arguments are those of the clause with its arguments in place, and one table is taken per term; what the clause means is `PgReading.GroupedReads` |
| PgClauses.BuildRangeQuery | search/postgres_search.go:411-465 | the text is that of the clause with its arguments in place; the arguments are too, except for one more when there are no bounds; what the clause means is `PgReading.RangeReads` |
| PgClauses.WrittenOrderIsLost | search/postgres_search.go:412-414 | a range and the same range with its ends exchanged are compiled to the same clause and arguments |
| PgClauses.CompiledAsWrittenExactly | search/postgres_search.go:411-465 | a range is compiled with its written start as the lower limit and its written end as the upper one if and only if the start does not come after the end as a string |
| PgClauses.FromBecomesUpTo | search/postgres_search.go:412-414 | [x TO *] is compiled to the very clause and arguments of [* TO x] as written, if and only if x comes after a star as a string |
| PgReading.LeadWords | search/postgres_search.go:487-497 | the word before a clause is AND for AND, nothing for no operator and OR for any other |
| PgReading.ValueReads | search/postgres_search.go:467-485 | a value is compared with = or <>, or with LIKE or NOT LIKE where the term has wildcards, by whether the term is negated |
| PgReading.EscapeIsPattern | search/postgres_search.go:551-557 | replacing one character after the other escapes each by itself |
| PgReading.BasicReads | search/postgres_search.go:286-346 | read as SQL, the clause says: the field has the value or the value ends its path; negated, it has another and no such path, or the item does not have the field |
| PgReading.GroupedReads | search/postgres_search.go:348-409 | read as SQL, the clause says: one row has the values, or each value ends the path of a row of its own, required and negated terms binding to the term before them |
| PgReading.RangeReads | search/postgres_search.go:411-465 | read as SQL, the clause says: the value, or the path, is between the limits, themselves included or not, negated or not |
| PgSearch.PgQuery.Execute | search/postgres_search.go:194-270 | for every linked chain: following `Next` and cutting subqueries out, it collects the clauses with their arguments taken out, the arguments and the paths in order and counts tables on, or ends in the error or the panic the chain leads to |
| PgSearch.Compiles | search/postgres_search.go:194-270 | compiling the links of a query makes its work: one clause per operand, its arguments, paths and tables, through any nesting |
| PgSearch.PgQuery.AddSubQuery | search/postgres_search.go:238-251 | a subquery's clauses are put in parentheses, and its paths, arguments and tables go on from those before it; its error or panic is handed on |
| PgSearch.PgQuery.PassSubQuery | search/postgres_search.go:238-251 | the walk goes on after the end marker of the subquery that was cut out, and a subquery that is not closed ends it |
| PgSearch.PgQuery.PassNot | search/postgres_search.go:252-255 | a NOT is passed over and hands on the operator before it |
| PgSearch.PathsExactly | search/postgres_search.go:206-237 | exactly the paths some link asks for are looked at |
| PgSearch.ArgumentsMatchExactly | search/postgres_search.go:411-465 | arguments and places match one for one and in order if and only if no range in the query is without bounds |
| PgSearch.OpenRangeShifts | search/postgres_search.go:450-463 | after a:[* TO *] the place for the next path gets a.* instead |
| PgSearch.CraftFullQuery | search/postgres_search.go:499-549 | the paths get $3 on and the places the numbers after them; the arguments are the organisation, the index, the paths and the collected ones |
| PgReading.MeansWhatItSays | search/postgres_search.go:194-270 | for every query: read as SQL, with AND binding stronger than OR, its condition is true exactly when the query's own operators make it so over what its terms ask; it cannot be read exactly when operands are not joined or a group of terms is empty |
| PgStatement.OneTable | search/postgres_search.go:528-530 | a query that takes a single table has a single clause, so taking the first one loses nothing |
| PgStatement.PlaceholdersBindTheirArguments | search/postgres_search.go:499-549 | putting each argument where its placeholder is gives the statement with every argument in its own place, for every query without unbounded ranges |
| PgStatement.NumbersAreConsecutive | search/postgres_search.go:521-546 | path and argument placeholders are numbered consecutively from $3 up to the last argument |
| PgStatement.TablesDeclaredExactly | search/postgres_search.go:528-538 | every alias the statement mentions is declared by its joins, unless the query is a lone negated term, whose clause mentions i; that is an if and only if |
| PgStatement.LoneNegationFails | search/postgres_search.go:528-538 | a lone negated term is such a query: its statement mentions i and does not declare it |
| PgStatement.AsksWhatTheQuerySays | search/postgres_search.go:499-549 | what the statement asks of the rows is what its query does, through any nesting |
| PgStatement.Compile | search/postgres_search.go:194-270 | compiling the linked chain of any query succeeds and gives that statement and those arguments; filled in and read as SQL, its condition holds of the rows exactly when the query does, by its own operators, and cannot be read exactly when the query is not readable |
| PgStatement.CompileQuery | search/postgres_search.go:194-270 | the same from a query through the parser's actions and the linked chain |
| Datastore.GetNextID | datastore/datastore.go:488-498 | larger than every id in use |
| Datastore.Added | datastore/datastore.go:216-252 | adding a status under such an id keeps ids unshared and the lists covering the map, and extends one node's history |
| Datastore.Removed | datastore/datastore.go:382-402 | deleting a node's ids removes its history and no other |
| Datastore.DataStore.SetNodeStatus | datastore/datastore.go:216-252 | the node's history is one longer, all others are as they were |
| Datastore.DataStore.ReplaceNodeStatuses | datastore/datastore.go:257-301 | the node's history is the given one; an error, and nothing changed, while no status was ever set |
| Datastore.DataStore.AllNodeStatuses | datastore/datastore.go:305-333 | the node's history as a multiset, empty for an unknown node |
| Datastore.DataStore.LatestNodeStatus | datastore/datastore.go:337-371 | the status added last; sorting the id list in place does not change any history |
| Datastore.DataStore.DeleteNodeStatus | datastore/datastore.go:375-380 | the node's history is gone |
| Datastore.Perform | datastore/datastore.go:216-402 | over every run of sets, replacements, deletions and reads the two maps stand for the histories the run describes |
| Datastore.LatestIsLastAdded | datastore/datastore.go:337-371 | after every run the end of a node's history is the status last added to it and not deleted since |
| NodeStatus.FirstAfter | node/status.go:241 | binary search finds where the newer statuses begin |
| NodeStatus.PurgeNode | node/status.go:228-252 | the node keeps exactly its newer statuses, others are untouched, and the count is what it lost |
| NodeStatus.KeptExactly | node/status.go:237-242 | a status is kept, as often as it was there, if and only if its time comes after the cutoff |
| NodeStatus.DeleteNodeStatusesByAge | node/status.go:206-255 | every node keeps exactly its statuses newer than the cutoff read at its turn, and removed plus remaining equals the original total; an error exactly when there is no status map and at least one node |
| NodeStatus.NewestIsLatest | node/status.go:236-248 | the latest status of a node that lost some is the newest it kept |
| Shovey.KeyInjective | shovey/shovey.go:659 | so keys of run ids of one length and output types without underscores are equal only if run, type and number are |
| Shovey.EqualKeys | shovey/shovey.go:659 | equal keys of run ids of one length have the same number, and are of the same run and type unless one type is something, an underscore and the other |
| Shovey.CollideExactly | shovey/shovey.go:659 | two output types share a key of different chunks if and only if one is something, an underscore and the other |
| Shovey.UnderscoresCollide | shovey/shovey.go:659 | every underscore in an output type can be taken for one in the node's name: the keys of the two streams are the same, number by number |
| Shovey.Streams.AddStreamOutput | shovey/shovey.go:653-670 | a chunk is stored under run id, node, type and number joined by underscores; a second one under the same key is refused and the store stays as it was |
| Shovey.Streams.GetStreamOutput | shovey/shovey.go:674-690 | the longest gap-free run of chunks from a number on; the open-ended loop ends because the store is finite |
| Shovey.Streams.CombineStreamOutput | shovey/shovey.go:693-706 | the output of the first chunk of that run begins the text, and each next one stands right behind those before it |
| Shovey.OrderDoesNotMatter | shovey/shovey.go:653-690 | distinct chunks added in any order make the same store, when run ids have one length and no output type is something, an underscore and another |
| Shovey.ReadsWhatWasAdded | shovey/shovey.go:674-690 | what is read are the added chunks of this very run and type with consecutive numbers, up to the first that was not added |
| Shovey.TextInSequence | shovey/shovey.go:700-705 | the output of each chunk stands at the sum of the lengths of those before it, and there is nothing else |
| Shovey.Streams.Deliver | shovey/shovey.go:653-706 | in whatever order chunks arrive, the output of the chunk asked for begins the text and each next one stands right behind, by number up to the first that was not sent |

## Left out

- HTTP handlers, configuration, logging, metrics, serf, S3 and Vault: input and output around the cores.
- The SQL back ends and what the database makes of a statement beyond its condition: the fixed wording around the condition
  is given, with its placeholders and aliases, but not read.
- The generated PEG parser: `SearchQuery` gives the actions of terms, ranges, NOTs, term groups with required terms and
  parentheses; unary `+` and `-` elsewhere, boosts, fuzzy terms and queries without an operator between operands are covered as actions on the chain only.
- `getDependencies` and `latestMultiConstraint`: they rest on a version library that is not part of this model.
- The cached `latest` cookbook version: reads compute it afresh.
- Matching a document against a term, a text or a range is a parameter of the index; tries, regular expressions, gob and zlib
  are not modelled, nor errors they return.
- NOT before groups of terms or subqueries: it has no set-algebra meaning in the code; a required (`+`) term in a group has
  the one `SearchEval.RequiredEndsGroup` states.
- `PgSearchQueryKey` is a parameter of the compiler; what LIKE makes of a pattern, and how paths and values compare, are
  parameters of the database.
- PgSearch.CraftFullQuery: the fixed wording of the statement around its condition is given, not read.
- Locks, and so data races: every store operation is one step.  In `Walk` the map locks are part of the step they guard.
- The store keeps copies of what it is given, as it does unless `UseUnsafeMemStore` is set.
- Depgraph.DepGraph.CheckConstraints: the callback's constraints are functions of noun, dependency and constraint; one that
  changes between calls is not modelled.
- WalkRuns.WalkIsOrdered: speaks of runs until the first failed callback; over all runs the order holds exactly where
  `WalkOrder.InOrderExactlyWhenListed` says.
- Signing.AssembleSignedHeader: header numbers are unbounded, so a number too large for an int is not read as the largest one;
  number 0, on which the program panics, is the outcome `Panics`.
- Signing.Base64BlockEncode: a negative limit is not modelled, nor no limit on empty content, which divides by zero.
- Signing.HeaderDecrypt: takes the parsed key; PEM and X.509 parsing are not modelled.
- Bytes.Base64RoundTrip: text after padding and other ill-formed text is rejected as a whole, without saying where.
- Versions.InfoVersions: returns the versions of the entries; their URLs are not modelled.
- Cookbooks.Server.NewVersion: `_latest` of a cookbook without versions, on which the program panics, is not modelled.
- Cookbooks.Server.DeleteVersion: `_latest` of a cookbook without versions, on which the program panics, is not modelled.
- Cookbooks.Server.UpdateVersion: the outcome of the checks on fields other than the divisions' checksums is given with the
  upload; files in S3 are not modelled.
- Datastore.DataStore.SetNodeStatus: ids given by the caller are not modelled; they are left to `getNextID`.
- Shovey.Streams.AddStreamOutput: the time a chunk was made is not kept.
- Shovey run states: any status string is accepted, so there is no life cycle to state.
