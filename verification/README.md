# Community board and RPCN client

A Dafny model of two parts of the service, with proofs about every input, run or reachable state.

**The community board.** One repository interface has two stores. PostgreSQL keeps normalised rows and counts them
again; DynamoDB keeps a flat key-value table with counters that several separate table calls maintain by deltas. A router
in front keeps list pages and post details in a cache and turns flat comments into a tree.

- `DynamoStore` and `PostgresStore` say what each operation does to each store when it runs alone.
- `Interleaving` runs the DynamoDB writers as concurrent tasks, one atomic step for each awaited table call, and proves the
  conservation of counters over every run; `SoloRuns` ties the steps to the sequential operations, `SequentialOrder` gives
  every run an equal sequential one, and `Races` says exactly what goes wrong outside the rules of admission.
- `DynamoLayout` and `DynamoRepository` refine the store to the text-keyed table and the adapter's loops.
  `PostgresRepository` does the same for the rows and cascades.
- `Arrangements` is what sorts by time have in common. `Simulation` and `BoardRuns` prove that the two stores answer alike,
  and `InterleavedBoards` that an interleaved DynamoDB run ends with a board of PostgreSQL.
- `Paging`, `Nesting`, `Cache`, `RouterSpec`, `Coherence` and `Router` cover pages, the reply tree, the cache and the handlers;
  `Answers` says what each request answers and leaves behind, told from the stored records alone. `RouterRaces` lets reads
  overlap with writes, and `StaleReads` says when what they show is out of date.

**The RPCN client.** `Wire` is the byte format, `RpcnClient` one client's session over a socket that cuts its stream into
arbitrary chunks, `Rooms` the room search and the server tree on that session, `RoomAnswers` what a search shows of the
bytes answered, and `Lifecycle` the shared client that threads connect, use, drop and close under one lock.

## Hypotheses

- At most one toggle is in flight for a post and voter, and a delete shares its post with no toggle or comment. Deletes may
  run together. `Races.HarmExactly` shows that these rules forbid just the pairs that can do harm when both would succeed. A
  toggle on PostgreSQL is one serial transaction.
- DynamoDB reads are strongly consistent and a query returns all its matches; the code follows no continuation key.
- No order is assumed among rows created at the same instant. `Arrangements` says what any sort by time has in common, and
  the adapter, the handlers, the cache results and the comparison of the stores are proved for any such order, with more said
  when no two times are equal. Paging is about one fixed list, with ties by id, and about the pages as answered when there
  are no ties.
- Cache results are over the DynamoDB store. Coherence needs requests that run one after another; for reads that overlap with
  writes `RouterRaces.EveryAnswerRecent` bounds the age of an answer and `StaleReads` says which writes make it stale.
  PostgreSQL rows hold datetimes that `json.dumps` rejects, so with that store nothing is ever cached.
- An in-order server sends one reply for each request it receives, in order, with any notifications before and after it.
  `Lifecycle` also lets it hang up and send packets that are neither.
- The monotonic clock is above zero, since a recorded failure time of zero reads as none.

## Where the code and its documentation differ

- `_recv_reply` says that it waits for a reply to the expected command (src/rpcn_client/client.py:303-309); neither the command
  nor the id is compared. The model follows the code (`RpcnClient.CommandNotCompared`), and pairing is proved from order.
- Past the last page PostgreSQL reports a total of 0 and DynamoDB the real one (`Simulation.PastLastPageDiffers`).
- An empty type filter is no filter to DynamoDB and a type to PostgreSQL (`Simulation.EmptyFilterExactly`).
- A list of the type `all` shares its cache key with the unfiltered list (`Coherence.SharedKeyExactly`).
- A body that swallows the RpcnError of an unexpected packet leaves the shared client one answer behind for every later
  caller (`Lifecycle.SkippedAnswerGoesToNextThread`), where the lifecycle means to drop a client on such an error.
- A login that raises anything but RpcnError or OSError leaves a half-made shared client (`Lifecycle.CutSetUpStays`).

## Model

| member | source | states |
|---|---|---|
| Interleaving.EveryRunKeeps | src/community/adapters/dynamodb.py:205-331 | after any interleaving of admissible toggles, comments, posts and deletes, any number of deletes of one post included: on every post that is not under removal each counter plus what running calls still owe it equals the records it counts; ids are at least 1, issued, and never shared by a post and a comment; no stored reply answers a reply |
| Interleaving.IdsNeverReused | src/community/adapters/dynamodb.py:60-68 | over a whole run the ids handed out are strictly increasing and above every id it started with, so none comes back after its record is deleted |
| Interleaving.AdvanceKeeps | src/community/adapters/dynamodb.py:205-331 | any one table call of any running operation keeps that invariant for all the others |
| Interleaving.StartKeeps | src/community/adapters/dynamodb.py:248-331 | admitting an operation that conflicts with no running one keeps it |
| Interleaving.StepFrame | src/community/adapters/dynamodb.py:226-331 | a table call changes no post, comment or thumb outside the post or vote its operation lays claim to |
| Interleaving.OthersKeep | src/community/adapters/dynamodb.py:290-331 | what an operation has read and still relies on survives any call of an operation that does not conflict with it |
| Interleaving.SelfKeeps | src/community/adapters/dynamodb.py:205-331 | each call establishes what the next call of the same operation relies on |
| Interleaving.StepBalance | src/community/adapters/dynamodb.py:304-331 | one call moves a stored counter, what is owed to it and the number of records it counts in balance |
| Interleaving.OwedUpdate | src/community/adapters/dynamodb.py:304-331 | one operation moving on changes the sum owed to a counter by exactly its own share |
| Interleaving.ParentTestSound | src/community/adapters/dynamodb.py:253-261 | the truthiness test on a parent's own parent decides exactly whether it has one, because stored parent ids are at least 1 |
| Interleaving.ParentsKeep | src/community/adapters/dynamodb.py:248-286 | replies stay one level deep while any other operation runs; only a delete in progress parts a reply from its parent |
| Interleaving.QuietIsValid | src/community/adapters/dynamodb.py:205-331 | when nothing is in flight every stored counter is exactly the number of records it counts and every reply stands under a top-level comment on its own post |
| Interleaving.ValidExactly | src/community/adapters/dynamodb.py:205-331 | a quiet store is valid exactly when its records are well-formed, its counters exact and its parents present |
| SoloRuns.CountersShowCountedVotes | src/community/adapters/dynamodb.py:304-331 | on every post that is not under removal the vote counters are at every moment the tallies of the votes counted so far |
| SoloRuns.CountersNeverNegative | src/community/adapters/dynamodb.py:248-331 | at every moment of every run every stored counter is non-negative, on posts under removal too |
| SoloRuns.ReturnedCounts | src/community/adapters/dynamodb.py:321-331 | the counts a toggle returns are the tallies of the votes counted up to that call, its own included |
| SoloRuns.CountedTally | src/community/adapters/dynamodb.py:304-331 | taking back the votes that are written and not yet counted changes a tally by exactly what is owed |
| SoloRuns.SoloToggle | src/community/adapters/dynamodb.py:290-331 | four calls run alone add up to one vote flipped and the counters moved by that change, or to PostNotFound |
| SoloRuns.SoloComment | src/community/adapters/dynamodb.py:248-286 | the calls of a comment run alone store it, count it once, or refuse it with the right error and no change |
| SoloRuns.SoloDelete | src/community/adapters/dynamodb.py:226-244 | the looped delete removes the post, all its comments and all its thumbs, and leaves every other record and the id counter untouched |
| SoloRuns.ToggleKeepsValid | src/community/adapters/dynamodb.py:290-331 | a toggle run alone keeps a quiet store valid |
| SoloRuns.CommentKeepsValid | src/community/adapters/dynamodb.py:248-286 | a comment run alone keeps a quiet store valid |
| SoloRuns.PostKeepsValid | src/community/adapters/dynamodb.py:205-224 | a new post keeps a quiet store valid |
| SoloRuns.DeleteKeepsValid | src/community/adapters/dynamodb.py:226-244 | a delete run alone keeps a quiet store valid |
| Races.SameVoterExactly | src/community/adapters/dynamodb.py:300-326 | two toggles by one voter, in any order of their calls, end with exact counters precisely when neither writes between the other's read and write |
| Races.HarmExactly | src/community/adapters/dynamodb.py:226-331 | from any valid store two operations have an order of calls that ends unsound exactly when the rules of admission keep them apart and each would succeed alone |
| Races.DeleteBetween | src/community/adapters/dynamodb.py:226-331 | a delete that runs between the checks and the writes of a toggle or comment can end, both tasks finished, with no such post and an item that holds its counters and nothing else |
| Races.StaleRace | src/community/adapters/dynamodb.py:300-326 | once a vote has been read too early and the other task has written, no order of the remaining calls makes the counters right |
| SequentialOrder.EveryRunIsSequential | src/community/adapters/dynamodb.py:205-331 | when every call of an interleaved run has returned, the store is the one the same operations leave one after another, in the order in which votes were written, posts and comments numbered and deletes found their post; each alone gives the same post or comment |
| SequentialOrder.RunShown | src/community/adapters/dynamodb.py:205-331 | the same at every moment of a run, for the store completed by what is numbered and not yet stored and without what is being removed |
| SequentialOrder.AdvanceShown | src/community/adapters/dynamodb.py:205-331 | one table call takes effect once or not at all in that sequential run |
| InterleavedBoards.InterleavingsAreBoards | src/community/adapters/postgresql.py:117-205 | whatever the interleaving, DynamoDB ends with the board PostgreSQL holds after the same operations one after another, through an increasing renaming of ids |
| InterleavedBoards.WorkSame | src/community/adapters/postgresql.py:117-205 | each of those operations keeps the two stores the same board |
| Community.TallySet | src/community/adapters/dynamodb.py:304-319 | setting one vote moves the tallies of its own post by the change in that vote, and no other tally |
| DynamoLayout.KeyTextInjective | src/community/adapters/dynamodb.py:100-109 | post, comment, thumb and counter keys never share a text, for all ids and all voter texts |
| DynamoLayout.QueriesSelect | src/community/adapters/dynamodb.py:194-201 | a key passes the comment query, or the thumb query, exactly when it belongs to that family of that post |
| DynamoLayout.PutRepresents | src/community/adapters/dynamodb.py:266-277 | writing an item under its text changes one record of the store and no other |
| DynamoLayout.RemoveRepresents | src/community/adapters/dynamodb.py:233-244 | deleting an item under its text removes one record of the store and no other |
| Text.NatTextRoundTrip | src/community/adapters/dynamodb.py:186-188 | decimal printing can be read back |
| Text.IntTextInjective | src/community/adapters/dynamodb.py:186-188 | two integers print alike only when equal |
| DynamoRepository.Repository.GetPost | src/community/adapters/dynamodb.py:185-192 | the post under its key, or PostNotFound |
| DynamoRepository.Repository.GetPostComments | src/community/adapters/dynamodb.py:194-203 | the stored comments of the post, each once, ordered by time; in creation order when times differ |
| DynamoRepository.Repository.CreatePost | src/community/adapters/dynamodb.py:205-224 | the flat table ends holding the store with the next id issued and the post added |
| DynamoRepository.Repository.CreateComment | src/community/adapters/dynamodb.py:248-286 | the flat table ends holding the store with the comment added and counted, or unchanged on a refusal |
| DynamoRepository.Repository.ToggleThumb | src/community/adapters/dynamodb.py:290-331 | the flat table ends holding the store with the vote flipped and both counters moved; the counts returned are the new ones |
| DynamoRepository.Repository.DeleteThumbsFor | src/community/adapters/dynamodb.py:335-343 | the loop over queried items removes exactly the thumbs of the post |
| DynamoRepository.Repository.DeleteCommentsOf | src/community/adapters/dynamodb.py:231-236 | the loop over listed comments removes exactly those comments |
| DynamoRepository.Repository.DeletePost | src/community/adapters/dynamodb.py:226-244 | the owner's delete leaves the store without the post, its comments and its thumbs; anyone else's leaves it unchanged |
| DynamoRepository.Repository.ListPosts | src/community/adapters/dynamodb.py:167-183 | the page is the slice at its offset of a list of all selected posts, each once, newest first, and the total is the length of that list, whatever order equal times come in; with distinct times it is the specified page |
| DynamoRepository.CommentQueryItems | src/community/adapters/dynamodb.py:194-201 | what the comment query finds in the text-keyed table is the comments of that post |
| DynamoRepository.ThumbQueryItems | src/community/adapters/dynamodb.py:335-341 | what the thumb query finds is the votes on that post |
| PostgresRepository.Repository.CreatePost | src/community/adapters/postgresql.py:117-122 | the row is added under the next identity value and nothing else changes |
| PostgresRepository.Repository.CreateComment | src/community/adapters/postgresql.py:134-155 | the row is inserted after the post, parent and depth checks, or nothing changes |
| PostgresRepository.Repository.ToggleThumb | src/community/adapters/postgresql.py:159-205 | the vote is deleted or upserted and both stored counts become the recount of the rows |
| PostgresRepository.Repository.DeletePost | src/community/adapters/postgresql.py:124-130 | the owner's delete with the schema's cascades removes the post's rows in all three tables |
| PostgresRepository.Cascade | src/community/adapters/postgresql.py:33-34 | following both cascading keys to the end removes exactly the comments on the post |
| PostgresStore.ToggleKeepsValid | src/community/adapters/postgresql.py:159-205 | stored counts stay the counts of the rows |
| PostgresStore.DeleteKeepsValid | src/community/adapters/postgresql.py:31-51 | no row is left referring to a deleted post or comment |
| PostgresStore.CommentKeepsValid | src/community/adapters/postgresql.py:134-155 | references resolve and replies stay on their parent's post and one level deep |
| BoardRuns.EveryRunSame | src/community/adapters/dynamodb.py:167-331 | in every sequential run of all seven operations, whatever order each store gives to rows of equal time, the stores answer alike through a renaming of ids that keeps their order: same success or same error, same counts, same comments, same times in every place of a list, and the same row in every place when no two times are equal |
| BoardRuns.StoresAgreeFromTheStart | src/community/adapters/postgresql.py:86-205 | the same from two empty stores |
| BoardRuns.OpSame | src/community/adapters/dynamodb.py:167-331 | one operation made to both stores keeps them the same board, and any answers they may give are the same answer |
| Simulation.ToggleSame | src/community/adapters/postgresql.py:173-205 | a vote counted by delta and a vote counted from rows give the same counts |
| Simulation.DeleteSame | src/community/adapters/postgresql.py:124-130 | the looped delete and the cascade leave the same board |
| Simulation.CreatePostSame | src/community/adapters/postgresql.py:117-122 | both stores add the same post under their own next id, and the renaming stays increasing |
| Simulation.CreateCommentSame | src/community/adapters/postgresql.py:134-155 | same comment or same error in both stores, whatever parent is named |
| Simulation.GetCommentsSame | src/community/adapters/postgresql.py:110-115 | any two time-ordered lists of a post's comments, one from each store, hold the same comments and the same times place by place, and are the same list when no two times are equal |
| Simulation.ListPostsSame | src/community/adapters/postgresql.py:86-102 | any two pages the stores may give have the same length and times, and the same posts when no two times are equal; their totals agree exactly when the page starts inside the list or the list is empty |
| Simulation.PastLastPageDiffers | src/community/adapters/postgresql.py:101 | past the last page of a list that is not empty both pages are empty and only PostgreSQL reports a total of 0 |
| Simulation.SecondPageDiffers | src/community/adapters/postgresql.py:101 | one post is enough: on its second page, of any size, every total PostgreSQL may give is 0 and every total DynamoDB may give is 1 |
| Simulation.ArrangedAlike | src/community/adapters/dynamodb.py:202 | two sorts by time of the same rows, one in each store, name the same rows and show the same time at every place, and agree when no two times are equal |
| Arrangements.SameTimes | src/community/adapters/dynamodb.py:202 | two sorts of one set of rows by time show the same time at every place |
| Arrangements.SortIsByTime | src/community/adapters/dynamodb.py:202 | when no two times are equal a sort by time alone gives the creation order |
| Simulation.EmptyFilterExactly | src/community/adapters/postgresql.py:95 | on any two stores of one board, with their own ids, an empty type filter selects alike exactly when every post has the empty type |
| Simulation.EmptyFilterAnswers | src/community/adapters/dynamodb.py:174-179 | the totals on the first page of a list with an empty filter agree exactly then |
| Simulation.TypedPostDiffers | src/community/adapters/dynamodb.py:174-179 | one post with a type is enough for the two selections to differ |
| Paging.PagesArePrefix | src/community/adapters/dynamodb.py:181-183 | pages 1 to n laid end to end are the first n times size posts of the list |
| Paging.PagesCoverList | src/community/adapters/dynamodb.py:179-183 | pages 1 to ceil(total / size) are the whole list, with no gap and no repeat |
| Paging.AnsweredPagesCover | src/community/adapters/dynamodb.py:167-183 | when no two posts were created at one instant, pages 1 to n as they were answered are the whole list once they reach the total they report |
| Paging.NewestIsWholeList | src/community/adapters/dynamodb.py:167-178 | the list holds each selected post once, newest first |
| Nesting.Nest | src/community/router.py:78-87 | the two loops over shared comment objects build the tree of threads: parentless comments on top, each reply in its own parent's list, input order kept in every list |
| Nesting.Index | src/community/router.py:79-82 | one object for each comment, found by its id |
| Nesting.NestingPermutes | src/community/router.py:77-89 | flattening the tree gives every comment of the list exactly once |
| Nesting.ThreadsInOrder | src/community/router.py:78-87 | the comments on top and the replies of each thread stand in the order of the list; each reply names its thread's comment as its parent |
| Nesting.RepliesAreLeaves | src/community/router.py:83-87 | nothing is nested under a reply |
| Nesting.StoredCommentsNest | src/community/router.py:72-89 | the comments of a post in a valid store, listed in any order, meet the conditions of nesting, and exactly the replies are nested |
| Cache.ReadAfterWrite | src/shared/cache.py:16-29 | a written value is read back until its time to live is over, by its own key alone; a failing write leaves every entry as it was and a failing read finds nothing |
| Cache.Redis.DeletePattern | src/shared/cache.py:32-43 | every entry whose key matches is gone, apart from those a failure leaves |
| Cache.MatchesLiteral | src/shared/cache.py:37 | a pattern without a star matches only itself |
| Cache.MatchesPrefix | src/shared/cache.py:37 | a prefix and a star match exactly the texts with that prefix |
| Cache.ListKeyInjective | src/community/router.py:47 | list keys tell page, size and shown type apart |
| Cache.DetailKeyInjective | src/community/router.py:67 | detail keys tell posts apart |
| Cache.KeysDisjoint | src/community/router.py:47-67 | no list key is a detail key |
| Cache.PatternsSelect | src/community/router.py:19-24 | the list pattern clears every list key and no detail key; a detail pattern clears its own key alone |
| RouterSpec.StaleAtMostTtl | src/community/router.py:41-124 | whatever subset of cache calls fails, a read is answered as the store might have answered at some request less than one time to live ago |
| RouterSpec.OneAnswer | src/community/router.py:41-91 | when no two posts and no two comments of a post were created at one instant, the store has one answer to each read |
| RouterSpec.EntriesHaveWriters | src/community/router.py:47-55 | every cached entry is what the store might answer to an earlier read with that key, at that time |
| RouterSpec.SameKeySameAnswer | src/community/router.py:47 | reads that share a key share their answers, unless one asks for the type `all` |
| Coherence.EveryRunCoherent | src/community/router.py:41-124 | without cache failures, in every run, whatever order the store gives to rows of equal time, a detail is one the store may give and a page has the ids, order, total, author, title, body and type of one the store may give now |
| Coherence.HandleCoherent | src/community/router.py:41-124 | every request keeps the cache coherent with the store |
| Coherence.CreatePostCoherent | src/community/router.py:58-62 | clearing the list keys is enough for a new post, because no detail of its fresh id can be cached |
| Coherence.DeletePostCoherent | src/community/router.py:94-98 | clearing the list keys and one detail key is enough for a delete |
| Coherence.OnePostWriteCoherent | src/community/router.py:105-124 | clearing one detail key is enough for a comment or a vote |
| Coherence.SharedKeyExactly | src/community/router.py:47 | two filters with one key have the same pages in every store exactly when both or neither are `all` |
| Coherence.AskingForAllHidesPosts | src/community/router.py:47 | a list of the type `all` is shown in place of the unfiltered list at every time until it expires; that is acceptable exactly when every post has that type |
| Coherence.PageFrame | src/community/router.py:105-124 | a write that leaves every post's author, title, body, type and time alone leaves every cached page acceptable |
| Coherence.JoinFrame | src/community/router.py:72-75 | what a detail shows depends on nothing but its post's row and its comments |
| Router.Handlers.ListPosts | src/community/router.py:41-55 | the handler over the flat table and the cache does what the router's specification says; the store's own answer is a page of the stored posts of that type, newest first, at the places asked for |
| Router.Handlers.GetPost | src/community/router.py:65-91 | the same for a detail: the store's own answer is the post with its threads and their replies, all oldest first, or PostNotFound exactly when there is no such post |
| Answers.AnswerMeans | src/community/router.py:65-91 | every detail the store may answer is the stored post with a thread for each comment without a parent, each once and oldest first, and under it exactly the comments that name it as their parent, each once and oldest first |
| Answers.ListMeans | src/community/router.py:41-55 | every page the store may answer shows stored posts of the type asked for, each once, newest first, at the places its number and size give among all such posts, and how many there are |
| Answers.EveryWriteAnswered | src/community/router.py:58-124 | in every run, whatever cache calls fail, each write leaves the store and answers as the four rows below say |
| Answers.VoteMeans | src/community/router.py:120-124 | a vote answers the stored counters, which are the numbers of up and down votes on record; the voter's vote is the one sent, or none when it was that already, and no other vote changes; a missing post gives PostNotFound and no change |
| Answers.PostMeans | src/community/router.py:58-62 | a created post is the row now stored under an unused id, with the author, title, body, type and time sent and nothing counted; nothing else changes |
| Answers.CommentMeans | src/community/router.py:105-113 | a comment is the record now stored under an unused id of its post, as sent, and the post's count is the number of its comments; a refusal names the first failed check: no such post, no such parent on it, a parent that is a reply |
| Answers.DeleteMeans | src/community/router.py:94-98 | only the author removes a post, and nothing on it stays; others get NotOwner, a missing post PostNotFound, and nothing changes |
| Answers.VoteTwice | src/community/adapters/dynamodb.py:300-326 | a vote sent again is withdrawn, an opposite one replaced; sent twice, it restores a vote of its own direction or none, with all counters |
| RouterRaces.EveryAnswerRecent | src/community/router.py:41-91 | when reads overlap with writes and with each other, and whatever cache calls fail, an answer is put together from the store at two moments since a read began that filled the cache; it is less old than the time to live and the duration of that read |
| RouterRaces.StepSourced | src/community/router.py:41-91 | every step of every overlapping read keeps each cached entry traceable to the store reads it was made from |
| RouterRaces.RunClears | src/community/router.py:19-24 | in every run nothing made before a successful delete is left in the cache, or shown later, under a key the delete matches |
| StaleReads.StaleHasCause | src/community/router.py:65-124 | in every run a detail that is shown though the store would no longer give it has its cause in a write that touches its post after the earlier of the two store reads, and that write either overlapped with the read that filled the cache or its key had not been cleared when this reader looked |
| StaleReads.CurrentUnlessTouched | src/community/router.py:72-75 | a detail put together from two reads is one the store may still give at any later moment when no write since the earlier read touches the post |
| StaleReads.OneTouchExactly | src/community/router.py:72-75 | when exactly one of those writes touches the post, it is still one the store may give precisely when the post was read after that write and, if the write is a comment, the comments too |
| StaleReads.AcrossWrite | src/community/router.py:72-124 | the same around one write, for its post and comments each read before or after |
| StaleReads.TouchedPost | src/community/adapters/dynamodb.py:205-331 | a write that names a post and succeeds always changes the post's row |
| StaleReads.OvertakenReadIsStale | src/community/router.py:65-124 | a detail read before a write and cached after the write cleared its key is shown to the next reader; the store may give it exactly when the write does not touch the post |
| Router.Handlers.CreatePost | src/community/router.py:58-62 | the row stored is the one answered, as sent and under an unused id, and every list key is cleared |
| Router.Handlers.DeletePost | src/community/router.py:94-98 | the post and all on it are removed and its keys cleared; a refusal answers the failed check and clears nothing |
| Router.Handlers.CreateComment | src/community/router.py:105-113 | the comment stored is the one answered, and its post's key is cleared; a refusal answers the failed check and clears nothing |
| Router.Handlers.ThumbPost | src/community/router.py:120-124 | the counts answered are the stored counters and the tallies of the votes, and the post's key is cleared; a refused vote clears nothing |
| Wire.FieldRoundTrip | src/rpcn_client/constants.py:30-31 | a little-endian field that fits its width is read back as written |
| Wire.LowestFirst | src/rpcn_client/constants.py:30-31 | a field is the sum of its bytes, byte i weighing 256 to the power i |
| Wire.HeaderRoundTrip | src/rpcn_client/constants.py:30-31 | a packed header unpacks to the fields it was packed from |
| Wire.HeaderLayout | src/rpcn_client/constants.py:30-31 | kind, command, size and id stand in bytes 0, 1 to 2, 3 to 6 and 7 to 14 of a header, lowest byte first |
| Wire.ParseEncoded | src/rpcn_client/client.py:288-292 | frames laid end to end parse back to the packets sent |
| Wire.ParseUnique | src/rpcn_client/client.py:288-292 | a byte stream parses to one list of packets only, the one that encodes to it |
| Wire.LoginRoundTrip | src/rpcn_client/client.py:87-109 | three strings without a zero byte come back from three reads, each landing just after its terminator |
| Wire.LoginReplyRoundTrip | src/rpcn_client/client.py:104-109 | name, avatar and signed id are decoded from a login reply, whatever follows them |
| Wire.CstrRoundTrip | src/rpcn_client/helpers.py:14-20 | a terminated string is read back from any position |
| Wire.ListRoundTrip | src/rpcn_client/client.py:115-132 | a counted list is decoded whole, with any trailing bytes |
| Wire.ListReadExactly | src/rpcn_client/client.py:121-132 | a counted list is decoded exactly when the data holds its count and all of its items |
| Wire.BlobRoundTrip | src/rpcn_client/helpers.py:23-37 | a length-prefixed message is unpacked whole, with any trailing bytes |
| RpcnClient.Client.Send | src/rpcn_client/client.py:288-292 | the id goes up by one; one whole frame with that id is sent, or none when a field does not fit |
| RpcnClient.Client.RecvExact | src/rpcn_client/client.py:294-301 | exactly the next n bytes for any chunking, never more; fails exactly when fewer remain |
| RpcnClient.Client.RecvReply | src/rpcn_client/client.py:303-326 | the loop over chunks returns the next reply of the stream, as `RpcnClient.ErrorAndDataRead` and `RpcnClient.CutReplyCloses` describe it, and leaves what follows it |
| RpcnClient.Client.Call | src/rpcn_client/client.py:288-326 | a request and its reply are one step of the session; with an in-order server `RpcnClient.EveryCallGetsItsReply` says what the reply holds |
| RpcnClient.Client.Connect | src/rpcn_client/client.py:29-57 | the opening packet is consumed and its version checked |
| RpcnClient.Client.GetServerList | src/rpcn_client/client.py:115-122 | one request and its decoded list; an error byte is an RpcnError, and nothing is sent for a malformed communication id |
| RpcnClient.Client.GetWorldList | src/rpcn_client/client.py:124-132 | the same for the worlds of a server; nothing is sent for a server id over two bytes either |
| RpcnClient.Client.Login | src/rpcn_client/client.py:79-109 | one request of three terminated strings and its decoded account; an error byte is an RpcnError |
| RpcnClient.ErrorAndDataRead | src/rpcn_client/client.py:324-326 | for every error byte and data a reply packet that holds them is read as just these, and an empty one as no error and no data; the rest of the stream is left |
| RpcnClient.CutReplyCloses | src/rpcn_client/client.py:294-315 | a stream that ends anywhere inside a reply ends the call as closed |
| RpcnClient.RefusalIsRpcnError | src/rpcn_client/client.py:94-102 | a decoded call is an RpcnError exactly for an error byte, a lost connection or an unexpected packet; malformed data and an unpackable request give other exceptions |
| RpcnClient.ComIdBytes | src/rpcn_client/helpers.py:7-11 | a communication id is encoded exactly when it is twelve ASCII characters, byte i being the code of character i |
| RpcnClient.EveryCallGetsItsReply | src/rpcn_client/client.py:288-326 | with an in-order server, for any requests, chunking and notifications, the payload answered to the k-th request is the error byte and then the data that the k-th call ends with, or empty for no error and no data; the stream is left at a packet boundary |
| RpcnClient.AskInStep | src/rpcn_client/client.py:288-326 | one call keeps client and server in step |
| RpcnClient.NotificationsSkipped | src/rpcn_client/client.py:316-318 | any run of notifications before a reply changes nothing |
| RpcnClient.FramesNumbered | src/rpcn_client/client.py:288-292 | the frames sent carry ids 1 to n in order with each request's command and payload |
| RpcnClient.CommandNotCompared | src/rpcn_client/client.py:303-326 | the command and id of a reply have no influence on who receives it |
| RpcnClient.UnexpectedLeavesReply | src/rpcn_client/client.py:320-322 | a packet that is neither reply nor notification ends one call and leaves that call's reply to the next |
| RpcnClient.GreetingAccepted | src/rpcn_client/client.py:41-57 | an opening packet is accepted exactly when it is server information of the supported version |
| Rooms.GetRooms | src/tekken_tt2/service.py:58-68 | the loop with swallowed errors computes the grouped rooms of a search, which `RoomAnswers.SearchShowsAnswers` describes |
| Rooms.RoomsOfAnsweringWorlds | src/tekken_tt2/service.py:58-82 | the rooms are joined in the order of the worlds, the k-th world's from the answer to the k-th request, whichever others were refused; `RoomAnswers.AnswerContributes` says what each answer brings |
| RoomAnswers.AnswerContributes | src/tekken_tt2/service.py:61-67 | by the bytes of one answer: a message that announces rooms brings exactly its rooms, an empty result and an error byte none, too few bytes for a length none, a message that cannot be parsed or has a room without a type an exception |
| RoomAnswers.EveryPayload | src/rpcn_client/helpers.py:29-37 | every payload is an answer of one of those kinds |
| RoomAnswers.SearchShowsAnswers | src/tekken_tt2/service.py:58-82 | a search returns the rooms of exactly the readable messages that announce any, each world's at its place, and raises exactly when some message is unreadable |
| RoomAnswers.SearchesSent | src/rpcn_client/client.py:158-159 | the k-th frame holds the command, the k-th id, the communication id and the k-th world's message behind its length |
| RoomAnswers.GroupsShowAnswers | src/tekken_tt2/service.py:51-68 | of the rooms answered those with a fifth attribute of zero stand under player match and the others under rank match, in the order answered, and none is lost |
| Rooms.SwallowedIsAbsent | src/tekken_tt2/service.py:61-67 | a world whose error was swallowed might as well not have been asked about |
| Rooms.GroupRoomsByType | src/tekken_tt2/service.py:51-55 | the two groups are the rooms of each type |
| Rooms.StablePartition | src/tekken_tt2/service.py:51-55 | the groups are a stable partition: those with a fifth attribute of zero and the others, each in input order |
| Rooms.GroupsHoldAll | src/tekken_tt2/service.py:51-55 | together the two groups hold every room as often as it was found |
| Rooms.GetServerWorldTree | src/tekken_tt2/service.py:42-48 | the loop reads the list of servers and each server's worlds |
| Rooms.TreeIsDirectory | src/tekken_tt2/service.py:42-48 | from a server that encodes a directory, the caller gets exactly that directory |
| Lifecycle.EveryRunSafe | src/tekken_tt2/rpcn_lifecycle.py:20-59 | in every interleaving of threads, with errors swallowed inside bodies, connections closed and unexpected packets sent at any time: one holder of the lock, at most one connection, no connect within the cooldown of an earlier failure, and every answer read is late by exactly the number of unexpected packets read before it on its connection |
| Lifecycle.OwnAnswerExactly | src/tekken_tt2/service.py:61-67 | a reader gets the answer to its own request exactly when no unexpected packet has been read on the connection before |
| Lifecycle.OnlyAnswersSent | src/tekken_tt2/service.py:61-67 | while the server sends only answers and notifications every reader gets its own answer, however many closed connections and error replies are swallowed |
| Lifecycle.NextAnswerExactly | src/tekken_tt2/rpcn_lifecycle.py:38-50 | with the lock free, the next caller's first request is answered by its own answer exactly when the server has not hung up and nothing is left to read |
| Lifecycle.SkippedAnswerGoesToNextThread | src/tekken_tt2/service.py:61-67 | after a body swallows the error of an unexpected packet, the next thread reads the answer to that body's request |
| Lifecycle.StepSafe | src/tekken_tt2/rpcn_lifecycle.py:20-59 | every step of every thread keeps that |
| Lifecycle.FreeLockMeansUsable | src/tekken_tt2/rpcn_lifecycle.py:35-59 | with the lock free the shared client has connected and logged in and let no RpcnError or OSError escape, exactly unless another kind of exception ended its set-up |
| Lifecycle.KnownFailuresOnly | src/tekken_tt2/rpcn_lifecycle.py:35-59 | when only RpcnError and OSError end a connect or login, a free lock means no client or one set up completely with no such failure since |
| Lifecycle.CutSetUpStays | src/tekken_tt2/rpcn_lifecycle.py:43-51 | any other exception from connect or login leaves an unusable client behind and records no failure |
| Lifecycle.HalfOpenClientHandedOut | src/tekken_tt2/rpcn_lifecycle.py:43-50 | a run in which the next caller is handed a client that never logged in |
| Lifecycle.VisitEffect | src/tekken_tt2/rpcn_lifecycle.py:35-59 | the steps of one visit add up to its effect on the two globals |
| Lifecycle.VisitReconnects | src/tekken_tt2/rpcn_lifecycle.py:39-59 | after any run, a visit that finds no client starts a connect at once when no failure was recorded or the latest is at least five seconds old, and otherwise changes nothing; one that finds a client starts none; a visit stopped by RpcnError or OSError records the failure and leaves no client |
| Lifecycle.Globals.ApiClient | src/tekken_tt2/rpcn_lifecycle.py:35-59 | one locked visit is the run of its steps; it ends Unavailable exactly for a failure recorded less than five seconds ago with no client, or when the first of connect, login and body to end badly ends with RpcnError or OSError; with another exception exactly when that comes first; the log says which connect and failure it adds |
| Lifecycle.Globals.ShutdownClient | src/tekken_tt2/rpcn_lifecycle.py:20-31 | the client is disconnected and forgotten, whatever the disconnect does |

## Left out

- More than two operations outside the rules of admission: `Races` treats pairs.
- In `Interleaving` a counter update on a missing post waits; the item it would create is in `Races`, and the case is proved unreachable under the rules of admission.
- Continuation keys, eventual consistency and index lag of DynamoDB.
- Votes other than up and down; the request model admits no others.
- PostgreSQL's 32-bit integers, length checks, identity gaps after a failed insert, and lock waits.
- PostgreSQL's reads as methods: `get_post`, `get_post_comments` and `list_posts` are queries and appear only as what they may return.
- The missing `comment_count` in PostgreSQL's `get_post` and `create_post`: the detail response drops that field, and a new post has none.
- Encoding cached values as JSON, and the truthiness test on them: a page and a detail are never empty objects.
- In `Router`, `RouterSpec` and `Coherence` the two reads of `asyncio.gather` are taken in order with no write between them; `RouterRaces` separates them.
- The SCAN cursor: a pattern delete removes all its matches or leaves an arbitrary part of them behind.
- The cache of the ranking router.
- TLS, timeouts and an OSError raised by the socket itself: in `RpcnClient` a connection ends by closing; in `Lifecycle` such an error is one way for an action to fail. Login is one action there, with its reply.
- UTF-8: strings on the wire are bytes without a zero byte.
- Protobuf: messages are bytes, and their serialiser and parser are parameters. np2_structs_pb2 is not part of this model.
- Leaderboards and `parse_game_info`.
- FastAPI, Pydantic, identity, settings and the mapping of exceptions to status codes.
- src/community/service.py and src/community/ports.py: delegation and an interface.
- Metrics, formatting and deployment files.
