# flagstate, modelled in Dafny

flagstate mirrors the tags of a container registry into a PostgreSQL database
and answers queries about them. This project models the pieces of its logic
that are easy to get wrong and proves what they promise:

- **The repository scheduler.** Any number of workers `Take` and `Release`
  repositories while requests arrive by `Add`, and one goroutine brackets full
  scans and garbage collections with `Lock` and `Unlock`. `DispatcherCore` says
  what each critical section does to the data, `RepoDispatcher` does it on
  objects (a `repoInfo` is shared by two maps), `DispatcherSystem` is the
  transition system over all interleavings, cut at `Cond.Wait`, and
  `DispatcherSpec` is the small specification it refines.
- **Reconciliation and garbage collection.** `Tables` holds the database and
  its collection, `Store` the statements that write it, `Reconcile` what a pass
  leaves behind as a function of the old table and the registry, and `Fetcher`
  the pass itself, from the query for the old tags to commit or rollback.
- **Both together.** `Mirror` joins the dispatcher with the passes and the
  collections it schedules, and says what the database holds when the workers
  have come to rest.
- **The query compiler.** `Queries` has the builder and its meaning, `Glob` the
  translation of globs to LIKE, `Sql` a parser with SQL's precedence and a
  three-valued evaluator, `WhereBuilder` and `CompileQuery` the clause as a
  function, `MakeWhereClause` the builder object and the compiler.
- **Group and merge.** `Results` turns two row streams into repositories,
  `DoQuery` runs a query from end to end against `Tables`, and `QueryAnswers`
  says what comes back for each builder method in terms of the database's columns.
- **Three smaller proofs.** `IfMatch` (the If-None-Match tokenizer),
  `JsonContains` (JSON containment and assertions), `Broadcaster` and
  `BroadcasterSystem` (the change broadcaster, as an object and among its callers).

`GoStrings` has Go's string order and `sort.Strings`; `Options` and
`Collections` hold what several modules share.

`dafny verify dfyconfig.toml` checks the whole project.

## Findings

Where a natural claim is false of the code, the exact condition is proved.

- Old tags come from all repositories (`database/postgres.go:120` and
  `database/postgres.go:184` do not restrict them to one), so a pass can skip a
  digest whose rows partly belong to another repository. `Reconcile.ConvergesIff`
  says exactly when the pass still converges, `Reconcile.SharedDigestDoesNotConverge`
  gives a table where it does not, and `Reconcile.QuietIff` says exactly when a
  repeated pass is quiet.
- A tagged list without entries is invisible to the list query and its rows can
  be left behind; `Reconcile.ConvergesIff` names these rows (`Stranded`), and
  `Reconcile.InvisibleListDoesNotConverge` gives a table with one.
- `likePattern` does not escape a backslash. `Glob.LikePatternExactIff`: the
  translation is exact if and only if the glob has none.
- The list query has no ORDER BY. `Results.MergedAscendingIff` and
  `Results.GroupedAscendingIff`: the result is strictly ordered by name if and
  only if both streams arrive in order.
- `jsonContains` is false on numbers and null, even against themselves.
  `JsonContains.ReflexiveIff`: a value contains itself if and only if it has neither.
- The broadcaster's serial wraps. `Broadcaster.NewerIff`: two serials compare as
  their changes happened if and only if no overflow lies between them.

## Model

| member | source | states |
|---|---|---|
| `DispatcherSystem.ReachableSafe` | util/repodispatcher.go:68-150 | in every reachable interleaving, unlocked with a worker asleep, at least as many workers are woken and have not yet run as repositories are ready; so ready work with everyone asleep cannot happen; no repository is held twice; a holder's `Release` never panics |
| `DispatcherSystem.PhaseExclusion` | fetcher/fetcher.go:98-118 | in every reachable state, no worker is between `Take` and `Release` while a scan or a collection runs; the locker sleeps unsignalled only while some worker holds a repository; nobody can take while it waits |
| `DispatcherSystem.StepInv` | util/repodispatcher.go:35-150 | every step keeps the invariant: ready maps index exactly the entries that are not pending, pending count exact, no idle entry, holders and pending entries one to one, locker state fits, no wakeup lost |
| `DispatcherSystem.RunInv` | util/repodispatcher.go:35-150 | the invariant holds at every point of every run |
| `DispatcherSystem.ReachableInv` | util/repodispatcher.go:23-150 | the invariant holds in every state reachable from a new dispatcher |
| `DispatcherSystem.InternalRunsEnd` | util/repodispatcher.go:96-150 | a run without requests from outside is no longer than a measure of its first state: workers do not spin |
| `DispatcherSystem.StuckIsDone` | util/repodispatcher.go:96-150 | when no step is left, nothing is held and either the dispatcher is empty or the locker has the dispatcher to itself: no deadlock |
| `DispatcherSystem.ReleaseEnabled` | util/repodispatcher.go:129-150 | in every state satisfying the invariant, a worker holding a repository can release it |
| `DispatcherSpec.StepRefines` | util/repodispatcher.go:68-150 | each step of the dispatcher is a step of the wanted/held specification: what is taken is wanted, not held, and urgent if anything free is urgent; what arrives during a fetch stays wanted |
| `DispatcherSpec.RunRefines` | util/repodispatcher.go:35-150 | every run of the dispatcher is a run of the specification with the same events |
| `DispatcherSpec.WantedUntilTaken` | util/repodispatcher.go:68-127 | a wanted repository stays wanted until a `Take` returns it |
| `DispatcherSpec.TakesNeverExceedAdds` | util/repodispatcher.go:68-127 | repeated adds coalesce: takes, plus one if still wanted, never exceed adds |
| `DispatcherSpec.AlwaysHeldOnce` | util/repodispatcher.go:96-150 | at no point of a run is a repository held by two workers |
| `DispatcherSpec.HeldUntilReleased` | util/repodispatcher.go:96-150 | what a worker holds it holds until it releases it |
| `DispatcherSpec.TakenTwice` | util/repodispatcher.go:96-150 | between two takes of a repository lie the first taker's release and a new add |
| `DispatcherSpec.NotWantedUntilAdded` | util/repodispatcher.go:68-94 | nothing becomes wanted without an add |
| `DispatcherSpec.EverythingWantedIsTaken` | util/repodispatcher.go:96-150 | left alone, unlocked and with at least one worker, the system takes every wanted repository before it comes to rest, within a bounded number of steps |
| `DispatcherSpec.LockIsGranted` | util/repodispatcher.go:35-43 | left alone, a `Lock` that was begun is granted once the outstanding holders release, within a bounded number of steps |
| `DispatcherSpec.RequestsInEveryRun` | util/repodispatcher.go:68-127 | in every run from a new dispatcher, an added repository is wanted until the next take of it, and takes never exceed adds |
| `DispatcherCore.AddKeeps` | util/repodispatcher.go:68-94 | `Add` keeps the data consistent, makes the repository wanted, and ready unless it is being fetched |
| `DispatcherCore.TakeKeeps` | util/repodispatcher.go:96-127 | `Take` keeps the data consistent and moves one ready repository to pending |
| `DispatcherCore.ReleaseKeeps` | util/repodispatcher.go:129-150 | `Release` keeps the data consistent, keeps what was asked for meanwhile and makes it ready |
| `DispatcherCore.ReadyIsWantedNotPending` | util/repodispatcher.go:55-66 | the two ready maps are disjoint and together the wanted repositories that are not pending |
| `RepoDispatcher.Dispatcher.AddToReady` | util/repodispatcher.go:55-62 | the object's ready maps change as the function says, still sharing the main map's info objects |
| `RepoDispatcher.Dispatcher.Add` | util/repodispatcher.go:68-94 | the critical section on shared objects does what the transition system's step does, and signals when that does |
| `RepoDispatcher.Dispatcher.TryTake` | util/repodispatcher.go:96-127 | one round of `Take`: nothing if nothing is ready, otherwise a repository of the urgent map if that has any, with the step's effect |
| `RepoDispatcher.Dispatcher.Grab` | util/repodispatcher.go:104-126 | with something ready, takes one of the urgent repositories if there are any, otherwise one of the others, with the step's effect |
| `RepoDispatcher.Dispatcher.Release` | util/repodispatcher.go:129-150 | panics exactly when the repository is not pending, otherwise has the step's effect and signals; the ready maps still share the info objects if they indexed the repository's entry |
| `RepoDispatcher.Dispatcher.LockStart` | util/repodispatcher.go:35-43 | locks, and waits exactly when something is pending |
| `RepoDispatcher.Dispatcher.Unlock` | util/repodispatcher.go:45-53 | unlocks, and broadcasts exactly when something can be taken |
| `Mirror.RequestedIsMirrored` | fetcher/fetcher.go:78-119 | in every run of workers, requests, passes, locks and collections: once the workers come to rest unlocked, every repository that was asked for at any time, that shares no digest, has no empty list and can be fetched, has exactly the registry's image and list rows |
| `Mirror.PursuedUntilMirrored` | fetcher/fetcher.go:84-96 | in every run, from the moment it is asked for, such a repository is wanted, being fetched, or has the registry's rows; and the rows of every repository come from its own old rows or its own registry |
| `Mirror.WorldRunInv` | fetcher/fetcher.go:78-134 | database integrity and the dispatcher's invariant hold at every point of every run of the whole |
| `Mirror.InitialWorldInv` | fetcher/fetcher.go:78-83 | both hold of a new dispatcher and an empty database |
| `Mirror.WorldRunsEnd` | fetcher/fetcher.go:84-96 | left to themselves, the workers come to rest within a bounded number of steps and commits |
| `Mirror.GenuineInEveryRun` | fetcher/fetcher.go:84-134 | in every run, every image row and list row in the database is one that the registry sent for that digest |
| `Mirror.ActionEnabled` | fetcher/fetcher.go:84-96 | whenever the dispatcher can go on, so can the whole: by that step, or by the commit that has to come before a release |
| `Mirror.CommitMirrors` | fetcher/fetcher.go:504-534 | a commit makes the rows of such a repository the registry's |
| `Mirror.CommitKeepsOthers` | fetcher/fetcher.go:504-534 | a commit leaves every other repository mirrored or not as it was |
| `Mirror.CollectionIsAlone` | fetcher/fetcher.go:110-113 | no worker holds a repository while garbage is collected, and no tag row changes |
| `Reconcile.ConvergesIff` | fetcher/fetcher.go:384-456 | for any old table, visible digests and registry, the pass leaves exactly the registry's rows if and only if no registry digest is masked by another repository's rows and no row of an invisible digest is stranded |
| `Reconcile.ConvergesWithoutSharing` | fetcher/fetcher.go:384-456 | it converges whenever the digests tagged here are visible and not tagged elsewhere, tags moving and swapping included |
| `Reconcile.OthersUntouched` | database/postgres.go:315-346 | the pass changes no row of another repository |
| `Reconcile.WriteOneMore` | database/postgres.go:315-346 | setting the tags of one more digest, after any set of digests was written, gives what writing the larger set gives; so the order of the digests does not matter |
| `Reconcile.MaskedPair` | database/postgres.go:111-123 | a digest tagged in two repositories can be masked |
| `Reconcile.SharedDigestDoesNotConverge` | database/postgres.go:111-123 | a table and a registry on which the pass does not converge |
| `Reconcile.InvisibleListDoesNotConverge` | database/postgres.go:172-188 | a table with a tagged list without entries, and a registry without it, on which the pass does not converge |
| `Reconcile.StillTagged` | fetcher/fetcher.go:384-456 | a digest of the registry that the query reported before the pass has a row here after it |
| `Reconcile.QuietIff` | fetcher/fetcher.go:384-460 | on a converged table, a pass writes nothing if and only if every digest is visible and not tagged elsewhere |
| `Reconcile.SkippedIff` | fetcher/fetcher.go:391-412 | on a converged table, a digest is skipped if and only if it is visible and not tagged elsewhere |
| `Reconcile.SecondPassChangesNothing` | fetcher/fetcher.go:384-456 | on a converged table, whatever a pass writes, the rows stay the same |
| `Fetcher.StringsEqual` | fetcher/fetcher.go:353-363 | decides equality |
| `Fetcher.GroupByDigest` | fetcher/fetcher.go:386-389 | one group for each digest of the registry, holding that digest's tags once each |
| `Fetcher.ComparingDecides` | fetcher/fetcher.go:391-412 | comparing the two sorted tag sequences decides whether the bags of tags agree |
| `Fetcher.UpdateImage` | fetcher/fetcher.go:391-412 | one image digest: fails exactly when it has to be fetched and cannot be, writes exactly when the old tags differ, and then its tags here are the new ones; a missing image is stored with the row that was fetched, a stored one stays as it is |
| `Fetcher.UpdateList` | fetcher/fetcher.go:427-448 | one list digest, likewise; a missing list is stored with its fetched row and its missing images with the rows the list gives them |
| `Fetcher.HandleImages` | fetcher/fetcher.go:391-415 | after the registry's image digests in any order, the table is the old one with the unskipped ones rewritten, every one is stored, new rows are the fetched ones, and what is left of the reported digests are those the registry does not have |
| `Fetcher.HandleLists` | fetcher/fetcher.go:427-451 | the same for list digests |
| `Fetcher.DeleteImages` | fetcher/fetcher.go:417-420 | the reported image digests that the registry does not have lose their tags here, in any order |
| `Fetcher.DeleteLists` | fetcher/fetcher.go:453-456 | the same for list digests |
| `Fetcher.UpdateImages` | fetcher/fetcher.go:386-420 | all image digests in any order, then the deletions: the table becomes the reconciled one and a change is reported exactly when something was written |
| `Fetcher.UpdateLists` | fetcher/fetcher.go:422-456 | all list digests, likewise |
| `Fetcher.QueryRepository` | fetcher/fetcher.go:366-382 | the query about one repository reports its visible digests, each with its sorted tags in all repositories |
| `Fetcher.UpdateRepository` | fetcher/fetcher.go:365-463 | succeeds exactly when every digest not reported can be fetched; both tag tables become the reconciled ones, integrity is kept, what was missing is stored as it was fetched and nothing else is changed, a change is reported exactly when a digest was written, and without one the database is as before |
| `Fetcher.FetchRepository` | fetcher/fetcher.go:504-534 | an error leaves the database as it was; after success image rows and list rows are the registry's if and only if nothing is masked or stranded; other repositories' rows are untouched; every stored image and list keeps its row, each new one has the row fetched for its digest, and any other new image is one of a new list's images, with that list's row |
| `Fetcher.PassRows` | fetcher/fetcher.go:391-451 | storing first the images and then the lists of a registry adds up to that |
| `Fetcher.StoredListRows` | database/postgres.go:376-410 | storing a fetched list stores its row and the rows of its missing images, and changes no row |
| `Fetcher.FetchTwice` | fetcher/fetcher.go:504-534 | two passes succeed exactly when the first can; the second, after one that converged, leaves both tag tables alone, and writes nothing and reports no change if and only if no digest here is tagged elsewhere and every list is visible |
| `Tables.BagIsSet` | database/postgres.go:111-123 | the tags aggregated over all repositories are a given set of tags if and only if the rows carry exactly those tags, each once |
| `Tables.CollectedKeepsForeignKeys` | database/postgres.go:482-502 | garbage collection breaks no reference |
| `DoQuery.CollectionIsInvisible` | database/postgres.go:482-502 | the row streams that answer a query after garbage collection are exactly those that answer it before, for images and for lists, whatever rows the query selects |
| `Tables.CollectionIsExact` | database/postgres.go:482-502 | what remains are precisely the lists with a tag and the images reachable from a tag |
| `Tables.CollectionIsIdempotent` | database/postgres.go:482-502 | a second collection removes nothing |
| `Store.ApplyKeepsIntegrity` | database/postgres.go:315-502 | every store, set-tags, delete and collect operation keeps integrity: tags refer to stored objects, stored lists have all their entries and images |
| `Store.IntegrityInEveryRun` | database/postgres.go:315-502 | integrity holds after every sequence of operations |
| `Store.StoredListIsComplete` | database/postgres.go:376-410 | after storing a list it has exactly its entries, also on the early return for a list that is already there |
| `Store.SetTags` | database/postgres.go:315-346 | the digest's rows in this repository become exactly the given tags, taking them over from other digests |
| `Store.DeleteRows` | database/postgres.go:335-343 | removes the rows of the given tags that still point to the digest, and no others |
| `Store.Transaction.SetImageTags` | database/postgres.go:348-350 | the same on the image tag table, failing on a reference to an image that is not stored |
| `Store.Transaction.SetImageListTags` | database/postgres.go:352-354 | the same on the list tag table |
| `Store.Transaction.InsertImage` | database/postgres.go:356-365 | an image that is already stored stays as it is |
| `Store.Transaction.StoreImage` | database/postgres.go:367-374 | the image is stored and its tags here are the given ones |
| `Store.Transaction.InsertList` | database/postgres.go:376-410 | list, entries and images are stored unless the list is already there |
| `Store.Transaction.StoreImageList` | database/postgres.go:412-419 | the list is stored with its entries and its tags here are the given ones |
| `Store.Transaction.DeleteImage` | database/postgres.go:421-428 | the image loses its tags in this repository and nowhere else |
| `Store.Transaction.DeleteImageList` | database/postgres.go:430-437 | the list loses its tags in this repository and nowhere else |
| `Store.Transaction.DeleteUnused` | database/postgres.go:482-502 | untagged lists go with their entries, then images without a tag or an entry |
| `Glob.LikePattern` | database/wherebuilder.go:55-71 | for a backslash-free glob the pattern it returns matches by LIKE exactly what the glob matches |
| `Glob.BackslashFreeExact` | database/wherebuilder.go:55-71 | for every backslash-free glob and every string, LIKE with the translation and the glob agree |
| `Glob.LikePatternExactIff` | database/wherebuilder.go:55-71 | the translation is exact if and only if the glob has no backslash |
| `Glob.MatchesChar` | database/wherebuilder.go:55-71 | as a glob, `*` matches every string, `?` every single character, and another character itself |
| `Glob.MatchesConcat` | database/wherebuilder.go:55-71 | a glob matches what its two parts match one after the other |
| `Queries.BuildMeans` | database/database.go:32-98 | a row answers the query built by some calls if and only if every field named in a call has a call whose term the row satisfies |
| `Queries.BuildKeepsCalls` | database/database.go:32-98 | a field holds a term if and only if some call gave it that term |
| `Queries.BuildWellBuilt` | database/database.go:32-98 | the builder's calls never put an "exists" term on a plain column, nor an empty entry into a map |
| `WhereBuilder.RemainingOpen` | database/wherebuilder.go:28-45 | the look-ahead that opens a parenthesis agrees with the counter that closes it |
| `WhereBuilder.RenderParses` | database/wherebuilder.go:13-53 | with AND binding tighter than OR, the flattened text of any runs parses to the conjunction over the runs of the disjunction of each |
| `WhereBuilder.RenderMeans` | database/wherebuilder.go:13-53 | and selects a row exactly when every run has a condition that is true on it, NULL counting as not true |
| `Sql.AndAfterOr` | database/wherebuilder.go:28-45 | in the parser that reads the clause, AND after OR binds tighter |
| `Sql.AndBeforeOr` | database/wherebuilder.go:28-45 | and so does AND before OR |
| `Sql.OrInParentheses` | database/wherebuilder.go:28-45 | unless OR is in parentheses, which is what `flatten` has to add |
| `MakeWhereClause.RestIsRemaining` | database/wherebuilder.go:13-53 | from every state its loop can be in, `flatten` emits what is left of the runs, for every sequence of pieces |
| `MakeWhereClause.Builder.Flatten` | database/wherebuilder.go:13-53 | the loop's result is the rendering of the maximal runs |
| `MakeWhereClause.Builder.MakeWhereSubclause` | database/wherebuilder.go:82-94 | one piece and one argument for each term of a plain column, numbered on from those before, and a separator |
| `MakeWhereClause.Builder.MakeMapSubclause` | database/wherebuilder.go:96-112 | one piece for each term of a map key, with one or two arguments, and a separator |
| `MakeWhereClause.AddPlainField` | database/wherebuilder.go:120-134 | a plain column joins the clause exactly when it has terms |
| `MakeWhereClause.AddMapFields` | database/wherebuilder.go:136-142 | each key of a map column joins the clause, in any order |
| `CompileQuery.ParamsLineUp` | database/wherebuilder.go:73-112 | over all subclauses the placeholders are exactly 1 to n in order, n the number of arguments |
| `CompileQuery.TermMeans` | database/wherebuilder.go:82-112 | each term's condition finds the arguments its term supplied, whatever surrounds them, and is true on a row exactly when the row satisfies the term |
| `CompileQuery.CompiledMeans` | database/wherebuilder.go:82-112 | the clause for a list of subclauses selects a row exactly when every subclause has a satisfied term |
| `MakeWhereClause.Compile` | database/wherebuilder.go:114-150 | for every built query and any order of its maps, the placeholders are 1 to n and there is no clause exactly when there is no term; without a backslash in a match pattern the clause selects a row exactly when every non-empty field has a satisfied term |
| `MakeWhereClause.CompileCalls` | database/wherebuilder.go:114-150 | the same said of the builder calls that made the query: the clause selects a row exactly when each field named in a call has a satisfied one, and there is no clause exactly when there was no call |
| `Results.GroupRows` | database/postgres.go:135-169 | the loop groups adjacent rows of one name |
| `Results.GroupingKeepsRows` | database/postgres.go:135-169 | grouping loses no row and moves none |
| `Results.GroupedAscendingIff` | database/postgres.go:200-243 | group names are strictly ascending if and only if the rows are in order |
| `Results.MergeRepos` | database/postgres.go:256-280 | the two-index loop computes the merge |
| `Results.MergingKeepsRows` | database/postgres.go:256-280 | the merge keeps every image row and every list row, in order; overwriting `Lists` loses nothing |
| `Results.MergedAscendingIff` | database/postgres.go:256-280 | the merge is strictly ascending if and only if both arguments are |
| `Results.OneGroup` | database/postgres.go:135-169 | rows of one name make at most one group |
| `Results.MergeOne` | database/postgres.go:256-280 | merging at most one entry of one name from each side gives at most one |
| `Results.BuildResult` | database/postgres.go:125-292 | the result holds exactly the two streams' rows, has an entry for each name in either stream and no other, none of them empty, is strictly ordered if and only if both are in order, and has at most one entry for a single name, without any assumption on order |
| `Results.MergedNotEmpty` | database/postgres.go:256-280 | merging makes no entry without an image or a list |
| `Results.NamesOfResult` | database/postgres.go:256-280 | the names of the entries are those of the rows |
| `Results.EntryIsComplete` | database/postgres.go:256-280 | in an ordered result, the entry of a name has all and only that name's images and lists |
| `DoQuery.CollectTags` | database/postgres.go:120 | the aggregate has one tag for each row that points to the digest |
| `DoQuery.SelectImages` | database/postgres.go:111-123 | one row for each repository and image with a selected tag, with the image and its tags |
| `DoQuery.SelectLists` | database/postgres.go:172-188 | one row for each repository and list with a selected tag and entry, with the selected images |
| `DoQuery.Run` | database/postgres.go:246-292 | from the query to the result: tags sorted, an entry for each name that has a row and no other, strictly ordered if and only if the streams were, at most one entry for one name; and for a query without a backslash in a match pattern exactly the images and lists of the rows that answer it, each once under its repository, a list with exactly the images whose own row answers |
| `QueryAnswers.FindRepository` | database/database.go:39-42 | `Repository(name)` finds exactly the images tagged in that repository and the lists with images tagged there, with their rows and all their tags |
| `QueryAnswers.FindTag` | database/database.go:44-47 | `Tag(tag)` finds exactly what carries that tag |
| `QueryAnswers.FindTagMatches` | database/database.go:49-52 | `TagMatches(pattern)` finds exactly what carries a tag that the glob matches, if the glob has no backslash |
| `QueryAnswers.FindOS` | database/database.go:54-57 | `OS(os)` finds exactly the images with that operating system and the lists with such an image, each with those of its images |
| `QueryAnswers.FindArchitecture` | database/database.go:59-62 | `Architecture(architecture)` finds exactly the images with that architecture and the lists with one |
| `QueryAnswers.FindAnnotationExists` | database/database.go:64-68 | finds exactly the images that have the annotation, and the lists with one |
| `QueryAnswers.FindAnnotationIs` | database/database.go:70-74 | finds exactly the images whose annotation has that value |
| `QueryAnswers.FindAnnotationMatches` | database/database.go:76-80 | finds exactly the images whose annotation the glob matches, if the glob has no backslash |
| `QueryAnswers.FindLabelExists` | database/database.go:82-86 | finds exactly the images that have the label |
| `QueryAnswers.FindLabelIs` | database/database.go:88-92 | finds exactly the images whose label has that value |
| `QueryAnswers.FindLabelMatches` | database/database.go:94-98 | finds exactly the images whose label the glob matches, if the glob has no backslash |
| `QueryAnswers.FindPlatform` | database/wherebuilder.go:114-150 | calls about two columns must both hold of the image |
| `QueryAnswers.FindEitherTag` | database/wherebuilder.go:114-150 | of two calls about one column one is enough |
| `QueryAnswers.FindAll` | database/wherebuilder.go:144-150 | a query without calls finds everything that is tagged, lists without entries excepted |
| `GoStrings.Sort` | database/postgres.go:282-289 | a sorted permutation |
| `GoStrings.SortedUnique` | database/postgres.go:282-289 | a bag of strings has one sorted arrangement |
| `GoStrings.LeqIff` | database/postgres.go:266 | the order is by characters: a prefix comes first, otherwise the smaller character at the first difference |
| `IfMatch.FindMatch` | web/httputil.go:14-18 | each match consumes at least one character, so what is left is shorter |
| `IfMatch.ParseIfMatch` | web/httputil.go:20-38 | the loop computes the parse of the trimmed header and ends on every input |
| `IfMatch.RoundTrip` | web/httputil.go:14-38 | every non-empty list of `*`, strong and weak tags, written with any whitespace and any empty elements, parses to exactly that list |
| `IfMatch.HeaderParses` | web/httputil.go:14-38 | said in characters: tags that are `*` or quoted text, perhaps after `W/`, with anything of blank, tab, line feed, carriage return, form feed and comma between them that has a comma, and Unicode white space around, parse to exactly those tags |
| `IfMatch.JunkForTag` | web/httputil.go:14-38 | where a tag should begin, a character that cannot begin one is an error, whatever tags came before |
| `IfMatch.JunkAfterTag` | web/httputil.go:14-38 | after a tag and blanks, anything but a comma or the end is an error |
| `IfMatch.UnclosedTag` | web/httputil.go:14-38 | a missing closing quote is an error, and so is a `W` without its slash |
| `IfMatch.TrimmedStays` | web/httputil.go:22 | a header without white space at its ends is parsed as it is |
| `IfMatch.NoTags` | web/httputil.go:14-38 | a header of empty elements is the empty list, and without a comma an error |
| `IfMatch.BlankHeader` | web/httputil.go:22-27 | an empty or blank header is an error |
| `IfMatch.ParseSound` | web/httputil.go:14-38 | whatever is accepted is such a header, or only empty elements, and the result is its tags |
| `JsonContains.JsonContainsLoop` | web/assert.go:35-77 | the loops decide containment |
| `JsonContains.ReflexiveIff` | web/assert.go:35-77 | a value contains itself if and only if it has no number and no null |
| `JsonContains.Transitive` | web/assert.go:35-77 | containment is transitive on all JSON values |
| `JsonContains.ContainedIsComparable` | web/assert.go:68-74 | what is contained in anything has no number and no null |
| `JsonContains.SubObjectContained` | web/assert.go:37-50 | an object without numbers and null contains each of its sub-objects |
| `JsonContains.SubArrayContained` | web/assert.go:51-67 | an array without numbers and null contains any selection of its items, in any order, with repeats |
| `JsonContains.MemberAdded` | web/assert.go:37-50 | a new member takes nothing away from what an object contains |
| `JsonContains.ItemAdded` | web/assert.go:51-67 | nor does a new item at any place of an array |
| `JsonContains.MemberGrown` | web/assert.go:37-50 | nor does replacing a member's value by one that contains it |
| `JsonContains.ItemGrown` | web/assert.go:51-67 | nor does replacing an item by one that contains it |
| `JsonContains.MemberRejected` | web/assert.go:42-50 | a key that is missing, or whose value is not contained, is enough to reject |
| `JsonContains.ItemRejected` | web/assert.go:56-67 | an item that no item contains is enough to reject |
| `JsonContains.ScalarsMustBeEqual` | web/assert.go:68-71 | strings, booleans and integers contain exactly their equals |
| `JsonContains.NumbersAndNullRejected` | web/assert.go:72-74 | decoded numbers and null contain nothing and are contained in nothing |
| `JsonContains.OtherKindRejected` | web/assert.go:35-77 | values of different kinds do not contain each other |
| `JsonContains.CheckAssertions` | web/assert.go:79-101 | an error exactly when some assertion is neither "contains" nor "not-contains"; otherwise a "contains" assertion is reported exactly when its test is not contained, a "not-contains" one exactly when it is, in order; on an error those before the first unknown one |
| `JsonContains.FailingIff` | web/assert.go:79-101 | an assertion is reported exactly when it is given and fails |
| `JsonContains.GrowthIsMonotone` | web/assert.go:79-101 | growing the result by containment makes no "contains" assertion fail and no "not-contains" assertion pass |
| `Broadcaster.NewerIff` | util/changebroadcaster.go:68-73 | of two changes fewer than 2^64 apart, the serial of the later compares greater if and only if the counter did not overflow between them |
| `Broadcaster.SerialsBelowLimit` | util/changebroadcaster.go:22-28 | the first 2^64 serials compare as the changes were made, and the next is zero again, newer than none of them |
| `Broadcaster.RemovedExact` | util/changebroadcaster.go:54-64 | swap removal takes away one occurrence and nothing else, and keeps a list free of duplicates |
| `Broadcaster.ChangeBroadcaster.Change` | util/changebroadcaster.go:22-39 | the serial grows by one, wrapping; when no waiter enters or leaves its receive during the call, every waiter blocked in its receive gets the change, and no other waiter does (`BroadcasterSystem.ChangeServesBlocked` has the interleaved case) |
| `Broadcaster.ChangeBroadcaster.RemoveWaiter` | util/changebroadcaster.go:54-64 | one occurrence of the channel leaves the list |
| `Broadcaster.ChangeBroadcaster.BeginWait` | util/changebroadcaster.go:66-97 | an answer at once exactly when the serial is greater; otherwise a new channel on the list, unless the timeout is not positive |
| `BroadcasterSystem.StepInv` | util/changebroadcaster.go:22-110 | every step of callers and broadcaster keeps the invariant |
| `BroadcasterSystem.WaitersExact` | util/changebroadcaster.go:50-64 | in every run the waiter list is the duplicate-free set of registered unfinished waits |
| `BroadcasterSystem.WaitIsFresh` | util/changebroadcaster.go:66-110 | in every run, a wait that blocked and succeeded returns a change made after the call; its serial is greater if and only if no overflow lies between; a wait without a timeout never fails |
| `BroadcasterSystem.AnswerIsFresh` | util/changebroadcaster.go:66-73 | an answer at once is the latest change, later than the one asked about, and is given if and only if there is a later one and no overflow since |
| `BroadcasterSystem.ChangeServesBlocked` | util/changebroadcaster.go:22-39 | in every run, `Change` serves each wait that was blocked in its receive when it began with the change it returns, unless that wait's timer fired first |

## Left out

- ETags, `Modified` and the modification time: `exec` has a value receiver, so `modify` is set on a copy and lost; no claim is made.
- `DeleteMissingRepos`: it names a table that does not exist.
- Progress of the full scan: the dispatch goroutine sends to its own bounded channel, so it can block itself.
- Missed changes: a change that comes between a waiter's unlock and its receive is dropped; and `Change` is signalled before commit.
- Manifest fetching, registry paging and JSON decoding: fetching is a function of the digest that may fail; list content is taken to be fixed by its digest.
- Errors of the database driver and of decoding rows: the model's statements fail only by foreign keys.
- SQL isolation, collation, indexes, wall-clock time: transactions are serial, row order and timeouts arbitrary.
- The text of a clause: modelled as tokens, with each condition one token; quoting and number formatting are not modelled.
- Strings: sequences of characters, so invalid UTF-8 in a glob or a header is not modelled.
- Identity of result records: repositories, images and lists of a result are values, so sharing between the merge's input and output is not captured.
- Scheduling of goroutines: `Take`, `Lock` and the waits are cut where they block, and the transition systems take up from there.
- HTTP handlers, form decoding, templates, configuration, timers, logging, the scripts: nothing hard to prove.
- DoQuery.Run: for queries with a backslash in a match pattern nothing is said about which rows are selected, because the translation of such a pattern is never exact.
- MakeWhereClause.CompileCalls: likewise.
- QueryAnswers.FindTagMatches: likewise.
- QueryAnswers.FindAnnotationMatches: likewise.
- QueryAnswers.FindLabelMatches: likewise.
- MakeWhereClause.Compile: likewise.
- Broadcaster.ChangeBroadcaster.Change: the object's loop runs without other goroutines in between; `BroadcasterSystem` interleaves them.
- Mirror.RequestedIsMirrored: the registry is taken not to change during the run, and requests to come from outside, whatever makes them.
- MakeWhereClause.Builder.MakeWhereSubclause: the panic on an "exists" term is a precondition, which every built query meets (`Queries.BuildWellBuilt`).
- RepoDispatcher.Dispatcher.TryTake: one round of the loop in `Take`; the wait between rounds is in the transition system.
- The builder methods of a query: they do not return their receiver for chaining.
- BroadcasterSystem.WaitIsFresh: the change asked about is taken to come from the same broadcaster.
