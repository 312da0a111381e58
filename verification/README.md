# fcopy in Dafny

fcopy copies one file to n servers. The client cuts the file into chunks and sends
each chunk to the first server only; every server writes the chunk and forwards it to
its children, in a chain or in a binary tree. This project models the three parts of
fcopy that have to fit together for that to be safe, and proves what they keep.

**Replication** (`Disk`, `Topology`, `Relay`, `SendPhase`, `Trace`,
`Deliveries`, `Progress`, `Schedule`, `Faults`, `Repeats`, `ErrorOrder`, `Returned`,
`Writes`, `Entries`, `Opening`, `Linking`, `Closing`, `Others`, `FileSender`,
`Shortfalls`). The send phase is a transition system. Its state holds the cursor, the
shared error, every worker's place in its loop, and for each request in flight a tree of
suspended handlers, each waiting for its own write and for the requests it forwarded.
One event is one atomic step of one worker or one handler, so a sequence of events is an
interleaving, and the theorems hold for all sequences, all file contents, chunk sizes,
numbers of workers and servers, and both shapes. Around it create, link and close
(`Opening`, `Linking`, `Closing`) are loops of requests, each executed any number of
times, answered or not, while other clients change their own entries at the same servers
(`Entries`, `Others`). The class `FileSender` runs all of it; `UploadFile` carries the
end-to-end statement.

**Open-file table** (`FileTable`). `FileManager` as an object, and the interleavings of
any number of its calls, split where the code drops or takes the lock.

**Wire format** (`Wire`, `Codec`, `Transport`). `Wire` says what a whole stream means;
`Codec` has the code's own incremental objects (`MessageBase`, `FcopyMessage`) and loops,
each tied to `Wire` on the bytes given so far; `Transport` says what the requests of the
send phase write and forward, and joins them to the format.

## What the theorems take for granted

- A successful `pread` returns min(chunk, size - offset) bytes of a source file that
  does not change; a successful `pwrite` writes everything; a failed one may have
  written any prefix. Short counts are not retried by the code.
- A request is executed any number of times, one after the other, and the client gets
  the reply of the last execution, or a nonzero transport error whether or not it was
  executed. By then no execution of it is still at work: a request that times out at its
  caller while its handler is still writing is not modelled, and for it
  `Trace.SendIsQuiet` would not hold. For SEND_FILE the number of repeats is bounded by `retries`. A close without
  wait_close may be repeated before or after the server has done what it owes.
- An error that is to be seen through a reply is nonzero in the 16-bit error field. In
  particular errno is nonzero when `open` hands out descriptor 0; what happens if it is
  not is `FileTable.ZeroWithoutEntry`.
- The kernel hands out non-negative descriptors that are not in use. `get_token` is any
  function of the path, not assumed injective.
- Other clients may at any time change the tables of the servers, but not the entries
  under this upload's token, nor its file. So no upload of the same path, or of one with
  the same token, begins or ends meanwhile.
- An uploading client has at least one worker (`main` clamps it).

That targets are distinct servers is not assumed: it follows from the creates having
succeeded.

## Where the code falls short of what one would expect

Each is a lemma or a contract below, with the exact condition; `Shortfalls` has small
instances of the first two.

- A create that is executed while the client is told of an error leaves an entry, and an
  open descriptor, that no close ever reaches: its token never came to the client. With
  repeats this happens whenever the first answer is lost, since the second execution
  replies that the token is taken. There is such an entry exactly if some execution of
  the first create not heard of got as far as the table, on a server of its own
  where the token was free (`Opening.OpenIsExact`, `Opening.HeardIsFirst`,
  `Shortfalls.UnheardCreateStays`).
- A close that is executed and not heard of leaves a token without an entry. From then
  on no `close_file` of this upload returns 0 (`Closing.CloseIsExact`,
  `Closing.CloseError`, `Shortfalls.UnheardCloseStays`, `Shortfalls.ClosingAgainFails`).
- `close_file` ignores the result of `ftruncate`. If it fails and the size is not a
  multiple of 8192, the close returns 0 and the file keeps its zero padding
  (`Disk.TruncateIsExact`, `FileSender.FileSender.UploadFile`).
- `create_fd` treats descriptor 0 as a failure without closing it. A descriptor leaks
  exactly when the kernel hands out 0 (`FileTable.ZeroLeaksIff`). If errno is 0 at that
  point `create_file` even returns 0 without having made an entry
  (`FileTable.ZeroWithoutEntry`).
- `create_file` truncates the file before it finds the token taken; the table and the
  descriptors are unchanged, the content is not. It stays exactly if it was empty or no
  execution opened the file (`Opening.TakenIsTruncated`).
- The size limit adds two 32-bit lengths before widening. Sixteen bytes can announce
  more than 4 GiB and pass a limit of 128 MiB (`Wire.LimitCanBeMissed`,
  `Wire.LimitIsExactIff`).
- The hop budget is cast to 16 bits. A chain works up to 65535 servers and never beyond;
  a tree of 65536 does not work, one of 65600 does (`Faults.HopBudget`,
  `Faults.HopBudgetOfTrees`, `Faults.ZeroIffNoFault`).
- A message kind without data still accepts data on the wire; such a message does not
  encode back to its own bytes (`Wire.AcceptedIsCanonical`, `Wire.DataCanBeLost`).

## Model

| member | source | states |
|---|---|---|
| FileSender.FileSender.UploadFile | src/client/fcopy_cli.cpp:98-132 | for all answers, executed, repeated or lost, all schedules and all doings of other clients: no handler is left at work; the closes tried are those of all creates up to the first not heard of; the entries left are exactly those made (heard of or not) and not closed, all others being as the other clients, who did only what is given, would have left them; the tokens left are exactly those of the closes not heard of; the closes owed are exactly those answered and not done; a positive local descriptor ends as -1. The error returned is that of creating and sending if there is one, the close's otherwise: errno if the source did not open, EINVAL without targets, what the client was told of the first create not heard of or of the first link lost, the last error recorded in the send phase, or what it was told of the first close not heard of. 0 means every target holds the source (padded only where ftruncate failed), and with wait_close no entry is left. Within the hop budget 0 is returned exactly when the source opened, every create made its entry on a server of its own, no link was lost, nothing failed in the send phase that no repeat made good, and every close was heard of |
| FileSender.LateClosesFinish | src/server/service.cpp:225-239 | after an upload without wait_close, successful or not, once the closes owed are done: the entries left are those made at servers that no close reached, and closing can go on; after a success none is left and the targets hold the source |
| FileSender.LeftInTheEnd | src/server/service.cpp:209-244 | with wait_close or without, in the end the same entries are left: those that no close reached |
| FileSender.FileSender.CloseUpload | src/client/file_sender.cpp:55-64 | what the close of an upload leaves of tokens, entries, closes owed and files; it returns 0 exactly when every close was heard of, and otherwise what the client was told of the first that was not; a positive local descriptor becomes -1, and 0 stays open |
| FileSender.FileSender.CreateAndSend | src/client/fcopy_cli.cpp:98-120 | the tokens held are those of the creates up to the first not heard of, the entries those and at most one that was made and not heard of; nobody is at work; 0 means every target is open and holds the padded source, and within the hop budget it is returned exactly when the source opened, every create made its entry, no link was lost and nothing failed that no repeat made good; any other error is the one that creating or linking was told, or the last one recorded in the send phase |
| FileSender.CreateOutcome | src/client/file_sender.cpp:28-53 | what creating and linking leaves: as many tokens as creates were heard of before the first that was not, an entry for each of them and for one made and not heard of; 0 exactly when all were heard of and no link was lost, and otherwise errno, EINVAL, or what the client was told of that create or of the first link lost |
| SendPhase.InvStep | src/client/file_sender.cpp:83-139 | every step keeps: claims are 0, c, 2c, ... with no two workers on one chunk; every claimed chunk is on all servers, in a worker's hands, or an error is recorded |
| SendPhase.SendSound | src/client/file_sender.cpp:66-81 | all workers gone and no error: the claims cover the file and every target's bytes are the source, padded |
| SendPhase.HoldsStep | src/client/file_sender.cpp:96-104 | a worker comes to hold an offset only by taking it from the cursor, which then moves past it |
| SendPhase.LetGoOk | src/client/file_sender.cpp:106-136 | a worker lets go of a chunk only when the whole tree has it, or with an error |
| SendPhase.ClaimsReach | src/client/file_sender.cpp:95-104 | every chunk below the cursor is among the claims |
| Relay.CallStepKeeps | src/server/service.cpp:246-288 | acknowledgement soundness, kept by every step of every handler at any depth: a zero answer means the whole subtree holds the chunk; forwarded bytes are the client's own unpadded ones; no write disturbs a chunk already there |
| Relay.JoinIsSound | src/server/service.cpp:265-283 | the joined error is zero exactly when the write and all forwards gave zero, and then the subtree has the chunk; a nonzero one survives the 16-bit field |
| Relay.WriteGrows | src/server/service.cpp:10-39 | a write of a chunk, complete or cut short, loses no chunk on any server and keeps the tail zero |
| Relay.SendChain | src/server/service.cpp:66-96 | one request for each link, to its address, with its token, one hop less and the same bytes |
| Relay.FirstError | src/server/service.cpp:270-283 | the loop finds the first nonzero of the forwards' errors, then the write's |
| Relay.RefusedIsHarmless | src/server/service.cpp:246-263 | a request for a file that is not open is answered what a close of it would get, one that would have to be forwarded without hops ECANCELED, and neither starts anything |
| Writes.FilesAreTheirWrites | src/server/service.cpp:10-39 | in every run, successful or not, each target's file is what its own handlers' writes make of it, in their order, and each of them is a padded chunk or the beginning of one |
| Trace.CallTraceStep | src/server/service.cpp:246-288 | a handler is at work in a subtree only while its request is unanswered; a step touches its own subtree and chunk only; a zero answer means each server below was asked, and exactly once as long as no step was a repeat |
| Trace.SendIsQuiet | src/client/file_sender.cpp:72-80 | when send_file returns, with or without error, no handler or write of the upload is at work anywhere |
| Trace.ExactlyOnce | src/client/file_sender.cpp:95-136 | after a success every target was asked for every chunk, and nobody is ever asked for anything else; in every run that repeats no request, whatever the retries allowed, each target is asked for each chunk at most once |
| Deliveries.DeliveryBound | src/client/file_sender.cpp:95-128 | a run that repeats no request delivers at most n * ceil(size / chunk) requests, and exactly that many if it succeeds; with repeats a success delivers no fewer |
| Progress.CallCostDrops | src/server/service.cpp:246-288 | every step of a request uses up some of the work it can still cause, retries included |
| Progress.RankDrops | src/client/file_sender.cpp:95-139 | every step of the send phase decreases one measure over unclaimed chunks and requests in flight |
| Progress.EveryRunEnds | src/client/file_sender.cpp:66-81 | no interleaving is longer than the measure of where it starts |
| Progress.CanGoOn | src/client/file_sender.cpp:95-139 | until all workers are gone some step that is neither fault nor retry is possible: no deadlock |
| Progress.CanFinish | src/client/file_sender.cpp:66-81 | from any reachable state the phase can be completed without a fault |
| Schedule.EveryInterleavingIsScheduled | src/client/file_sender.cpp:72-78 | for every interleaving there is a scheduler that is never stuck and follows it, so a statement about all schedulers is about all interleavings |
| Schedule.OnlyOneFollows | src/client/file_sender.cpp:72-78 | a scheduler determines the run: two complete runs that follow it are the same |
| Faults.HopBudget | src/client/file_sender.cpp:120 | for both shapes, the budget suffices exactly when n modulo 65536 covers the depth of the last target; so for every n up to 65535, and for a chain for no other |
| Faults.HopBudgetOfTrees | src/client/file_sender.cpp:120 | a tree of 65536 targets fails, one of 65600 does not |
| Faults.HopStep | src/server/service.cpp:75-92 | every request carries n mod 65536 minus its depth, so the decrement never wraps |
| Faults.HopForward | src/server/service.cpp:255-263 | a request within the budget is never refused with ENOENT or ECANCELED |
| Faults.DoomedStep | src/server/service.cpp:246-288 | an error is on its way up in a request after a step exactly when it was before, or the step is a fault |
| Faults.ZeroIffNoFault | src/client/file_sender.cpp:66-81 | without retries send_file returns 0 exactly when no allocation, read, write, forward or reply failed, given the budget; a 0 for a nonempty file proves the budget sufficed |
| Repeats.CarriedStep | src/server/service.cpp:246-288 | after every step of a request, repeats included, an error is on its way up exactly where some fault has not been made good by executing a request at or above its place again |
| Repeats.ZeroIffRepaired | src/client/file_sender.cpp:66-81 | for every complete run, whatever was repeated: send_file returns 0 exactly when every allocation and read succeeded and every fault in a request was made good by a later repeat at or above it, given the budget |
| Repeats.ZeroIfNoFault | src/client/file_sender.cpp:66-81 | a run without faults returns 0, however much it repeats |
| Repeats.UnrepairedIfNoRetry | src/client/file_sender.cpp:66-81 | in a run that repeats nothing, no fault is made good |
| ErrorOrder.FirstErrorInPostOrder | src/server/service.cpp:270-283 | when only writes fail, the client gets the first failure in post order of the tree, and 0 exactly when every write succeeded |
| ErrorOrder.ChainIsDeepestFirst | src/server/service.cpp:270-283 | in a chain the deepest failing server's error wins |
| ErrorOrder.ZeroIffAllZero | src/server/service.cpp:270-283 | nothing surfaces exactly when no server in the subtree failed |
| ErrorOrder.JoinSurfaces | src/server/service.cpp:49-50 | one handler's first-error rule on its children's answers is the post-order rule of its subtree |
| Returned.VerdictStep | src/server/service.cpp:246-288 | what a caller is told of a request, at any depth, is determined by what happened to it since its last delivery: the transport's error if the last try was lost, ECANCELED without hops, and otherwise 16 bits of the first error of the children in order, or of the own write |
| Returned.LastRecordedWins | src/client/file_sender.cpp:83-139 | in every run, whatever fails or is repeated and whatever the hop budget: a worker leaves the loop with the error of its read or with what it was told of its request; the error left is the last nonzero one that a worker brought or that an allocation gave, and 0 if there was none |
| Returned.SendReturnsPostOrder | src/client/file_sender.cpp:66-139 | when only writes fail, send_file returns 0 or the first failure in post order of a chunk that was claimed |
| Returned.NoMoreClaims | src/client/file_sender.cpp:95-104 | once an error is recorded there always is one, and over any run the claims grow at most by the workers that were already past the test of the loop |
| Returned.RepeatsAreBounded | src/server/service.cpp:66-96 | a request, at any depth, has all its retries but those used since it was made; while it has one left it can be repeated when it or its reply is lost, and otherwise it cannot |
| Disk.PaddedLenLeast | src/server/service.cpp:14-19 | the padded length is the least multiple of 8192 that holds the data |
| Disk.WriteIsAligned | src/server/service.cpp:14-31 | every write has offset and length divisible by 8192, is at most a chunk long and inside its slot; only the last chunk is padded |
| Disk.SlotsDisjoint | src/server/service.cpp:14-31 | the padded writes of distinct chunks do not overlap |
| Disk.WriteKeepsChunk | src/server/service.cpp:31-35 | writing any prefix of a chunk leaves every chunk already present as it was |
| Disk.WriteAllIs | src/server/service.cpp:31-35 | the file after any sequence of chunk writes, described without their order |
| Disk.OrderAndRepetitionDoNotMatter | src/server/service.cpp:31-35 | any two sequences of writes of the same chunks, in any order and with any repetition, leave the same file |
| Disk.AllChunksMakeTheFile | src/server/file_manager.cpp:150 | with every chunk present the file is exactly the source padded with zeros |
| Disk.TruncateIsExact | src/server/file_manager.cpp:150 | truncating gives the source back; without it the file is the source exactly when its size is a multiple of 8192 |
| Disk.TruncateAt | src/server/file_manager.cpp:150 | length and every byte of a truncated file, shorter or longer than before |
| Topology.ChildrenArePreimage | src/client/file_sender.cpp:213-256 | the links set by the loops are the inverse of the parent function: j is a child of i exactly when i is its parent |
| Topology.RootCoversAll | src/client/file_sender.cpp:209-272 | every target is reachable from target 0 |
| Topology.UnderSplits | src/client/file_sender.cpp:209-272 | a subtree is its root and the subtrees of its children, and nothing else |
| Topology.SiblingsAreDisjoint | src/client/file_sender.cpp:209-272 | subtrees of two children share no target |
| Topology.DepthIs | src/client/file_sender.cpp:209-272 | depth is i in a chain and floor(log2(i+1)) in a tree |
| Entries.TurnKeeps | src/server/file_manager.cpp:86-163 | what other clients do to their entries changes nothing about this upload's, here as it would have alone |
| Others.OthersDoNotMatter | src/server/service.cpp:246-288 | whenever in a send phase other clients make their moves, it goes as without them and the servers end as if they had made them at the end |
| Opening.ServeCreatesEffect | src/server/service.cpp:178-207 | any number of executions of one create make an entry exactly if the token was free and one of them got as far as the table; they leave the file empty exactly if one did or it was empty, also when the token was taken; the last replies 0 only if it made the entry, and otherwise the error of what it failed at, EEXIST if at the table |
| Opening.TakenIsTruncated | src/server/file_manager.cpp:115-133 | a create of a token that is taken fails and changes no entry, and leaves the content of the file as it was exactly if it was empty or no execution opened the file |
| Opening.CreateEffect | src/client/file_sender.cpp:151-171 | one create succeeds exactly if its last execution makes the entry, at a server with none yet; if some execution has made one it is there, heard of or not |
| Opening.OpenIsExact | src/client/file_sender.cpp:141-174 | whatever is answered, executed, lost or repeated: the tokens are those of the creates heard of, up to the first that is not; the servers with an entry are those with a token, and that one if a create was executed there and made an entry; 0 exactly when every create made its entry on a server of its own, and otherwise what the client was told of the first that did not or was not heard of |
| Opening.HeardIsFirst | src/client/file_sender.cpp:163-171 | the number of tokens got is determined by the answers: all creates before it made their entries and were heard of, the one at it was not |
| Linking.LinkingRepeats | src/server/file_manager.cpp:155-163 | repeating a link request changes nothing, and one for a file that is not open changes nothing and gets -1 |
| Linking.LinkEffect | src/server/service.cpp:290-301 | a link keeps every entry, executed or not, and reports exactly the transport's error |
| Linking.LinkIsComplete | src/client/file_sender.cpp:209-272 | linking succeeds exactly if no request to a target with children is lost; then every server holds its links, each with the token its own target handed out; in any case every entry is still there, and none beyond the first link lost has links |
| Linking.LinkTells | src/client/file_sender.cpp:209-272 | linking stops at the first link that is lost, and returns its error |
| Closing.ServeClosesEffect | src/server/service.cpp:209-244 | what any number of executions of one close leave of the entry, the file and a close owed, and what the last of them replies, with wait_close and without |
| Closing.CloseKeeps | src/client/file_sender.cpp:176-207 | after any closes the entries are those there were but for the ones that went, and no other entry is touched |
| Closing.CloseIsExact | src/client/file_sender.cpp:182-201 | every nonempty token is tried, in spite of earlier errors; exactly those whose client heard of a 0 are emptied, and a close is owed exactly where a server answered and has not closed |
| Closing.CloseError | src/client/file_sender.cpp:196-206 | the close reports 0 exactly when every token tried was heard of, which a token without an entry never is |
| Closing.CloseTells | src/client/file_sender.cpp:182-206 | the error returned is that of the first close not heard of: the transport's, or that there is no entry (ENOENT with wait_close, ERR_NO_FILE without) |
| Closing.CloseDisks | src/server/file_manager.cpp:138-153 | each file whose entry goes is truncated to the size it was created for if ftruncate succeeds, and no other is touched |
| Closing.FinishKeeps | src/server/service.cpp:236-239 | the closes owed take exactly their entries |
| Closing.FinishDisks | src/server/file_manager.cpp:150 | each file whose close is owed is truncated once |
| Closing.LateCloseKeeps | src/server/service.cpp:220-239 | after the closes owed are done tokens and entries agree as before, so that closing can be repeated |
| Closing.WaitingLeaves | src/server/service.cpp:220-223 | with wait_close the entries left are those that no close reached |
| Closing.NotWaitingLeaves | src/server/service.cpp:225-239 | without it, once the closes owed are done, so they are |
| Closing.LazyIsLateClose | src/server/service.cpp:220-239 | where no close is repeated the client cannot tell the two ways of closing apart |
| Shortfalls.UnheardCreateStays | src/client/file_sender.cpp:163-171 | two servers, the second create executed and its answer lost, or lost and repeated: two entries, one token, and an error |
| Shortfalls.UnheardCloseStays | src/client/file_sender.cpp:191-200 | two servers, the second close executed and its answer lost: no entry, and still a token |
| Shortfalls.ClosingAgainFails | src/client/file_sender.cpp:191-206 | from there closing again, with nothing lost, changes nothing and fails with ENOENT |
| FileSender.FileSender.RemoteOpen | src/client/file_sender.cpp:141-174 | the loop opens targets in order up to the first error |
| FileSender.FileSender.SetSendChain | src/client/file_sender.cpp:209-235 | the chain loop asks each server with a child, in order, up to the first error |
| FileSender.FileSender.SetSendTree | src/client/file_sender.cpp:237-272 | the tree loop asks each server with children, in order, up to the first error |
| FileSender.FileSender.CreateFile | src/client/file_sender.cpp:28-53 | returns 0 exactly when the source opened, there are targets, every create made its entry on a server of its own and no link was lost; then all targets are open and linked; errno if the source did not open, EINVAL without targets, otherwise the transport's error or the server's reply for the first create not heard of, or else the error of the first link lost; in any case the tokens are those of the creates up to the first not heard of, and the entries are those and the one made and not heard of, if there is one |
| FileSender.FileSender.SendFile | src/client/file_sender.cpp:66-81 | ends under every scheduler, in the state its run reaches with all workers gone, and returns the error left there, which is the last one that its events record |
| FileSender.FileSender.RemoteClose | src/client/file_sender.cpp:176-207 | the close loop, called only when no handler is at work, with the first error returned and all tokens dropped only if there was none |
| FileSender.FileSender.CloseFile | src/client/file_sender.cpp:55-64 | returns 0 exactly when the client heard of a 0 for every token left, and then no token is left; otherwise what it was told of the first close that it did not hear a 0 of; the entries are those there were but for the ones that went; a positive local descriptor becomes -1, and 0 stays open |
| FileSender.FileSender.FinishCloses | src/server/service.cpp:236-239 | carries out the pending closes |
| FileTable.Reachable | src/server/file_manager.cpp:86-178 | in every interleaving: open descriptors are those in the table and those held between locked and unlocked parts, each with one owner; every key is its path's token; opens and closes balance; the creates and closes that return 0 number exactly the entries made and taken, and the others that reach the table return EEXIST and ENOENT |
| FileTable.OwnershipStep | src/server/file_manager.cpp:66-153 | descriptor ownership is kept by every step |
| FileTable.OneEntryPerPath | src/server/file_manager.cpp:127-133 | a path has at most one open entry |
| FileTable.CloseHitsItsOwn | src/server/file_manager.cpp:138-153 | a descriptor about to be closed is open and nobody else's, so none is closed twice |
| FileTable.OneCloseWins | src/server/file_manager.cpp:138-153 | as soon as one of any number of concurrent closes of a token has been through the locked part the entry is gone, and exactly one of them returns 0 if there was an entry, none otherwise |
| FileTable.OneCreateWins | src/server/file_manager.cpp:127-135 | as soon as one of any number of concurrent creates of a token has been through the table there is an entry; if there was none exactly one of them returns 0; every other one that gets there returns EEXIST, and all of them do if there was one |
| FileTable.FailAlone | src/server/file_manager.cpp:109-118 | a create whose open fails, with nothing in between, returns and leaves open what create_file does |
| FileTable.CreateAlone | src/server/file_manager.cpp:86-136 | and so does one that gets as far as the table, entry and return code included |
| FileTable.CloseAlone | src/server/file_manager.cpp:138-153 | a close with nothing in between does to table and descriptors what close_file does |
| FileTable.LinkAlone | src/server/file_manager.cpp:155-163 | linking replaces the links of that entry alone |
| FileTable.NothingLeaksAtRest | src/server/file_manager.cpp:66-71 | with no call in progress the open descriptors are the table's, plus 0 exactly when the kernel once handed it out |
| FileTable.ZeroLeaksIff | src/server/file_manager.cpp:73-83 | descriptor 0 stays open exactly when an open was answered with it |
| FileTable.ZeroWithoutEntry | src/server/file_manager.cpp:73-118 | create_file returns 0 without an entry exactly when its open or ftruncate counts as failed while errno is 0 |
| FileTable.FileManager.CreateFd | src/server/file_manager.cpp:73-83 | what is open afterwards, and which descriptor is returned |
| FileTable.FileManager.CreateFile | src/server/file_manager.cpp:86-136 | the table and the open descriptors after every outcome; a failure adds no descriptor but 0 and changes no entry |
| FileTable.FileManager.CloseFile | src/server/file_manager.cpp:138-153 | removes the entry and closes its descriptor, or changes nothing |
| FileTable.FileManager.SetChainTargets | src/server/file_manager.cpp:155-163 | replaces the links of one entry and nothing else, and returns -1 exactly if there is none |
| FileTable.FileManager.HasFile | src/server/file_manager.cpp:165-168 | found exactly when a close done now would return 0, which is what the handler of a close without waiting goes by |
| FileTable.FileManager.GetFd | src/server/file_manager.cpp:170-178 | negative exactly when a close would find no entry, so that the handler's test is exact; otherwise the descriptor is open, belongs to this entry and to no other, and the links are the ones stored |
| FileTable.FileManager.Destroy | src/server/file_manager.cpp:66-71 | closes exactly the descriptors of the table |
| Wire.TakeIntIs | src/common/message.cpp:73-83 | an integer is read exactly when the bytes begin with its big-endian form |
| Wire.TakeTextIs | src/common/message.cpp:85-100 | a string is read exactly when the bytes begin with its length and itself |
| Wire.BodyIsCanonical | src/common/message.cpp:228-386 | for all ten kinds: bytes decode to b exactly when they are the encoding of b and b fits its fields, so each body has one encoding and loses nothing |
| Wire.HeaderIsCanonical | src/common/message.cpp:160-177 | sixteen bytes are the encoding of the header read from them |
| Wire.BEAt | src/common/message.cpp:31-65 | byte k of an integer of w bytes is its digit of weight 256 to the w-1-k |
| Wire.HeaderLayout | src/common/message.cpp:144-177 | where each field of the header is, and the first four bytes of every message |
| Wire.CreateFileReqLayout | src/common/message.cpp:240-252 | where each field of a CreateFileReq is |
| Wire.SendFileReqLayout | src/common/message.cpp:283-302 | where each field of a SendFileReq is |
| Wire.CloseFileReqLayout | src/common/message.cpp:329-337 | where each field of a CloseFileReq is |
| Wire.SetChainReqLayout | src/common/message.cpp:372-386 | where token, count and targets of a SetChainReq are |
| Wire.TargetsLayout | src/common/message.cpp:372-386 | target k comes after those before it: host, port, token |
| Wire.Codes | src/common/message.h:17-34 | the code of each kind; a reply's is its request's plus 0x1000 |
| Wire.VerdictStays | src/common/message.cpp:418-452 | bytes after a verdict change nothing |
| Wire.FragmentationDoesNotMatter | src/common/message.cpp:418-452 | however a stream is cut, feeding the pieces up to the first nonzero code gives what the whole stream gives |
| Wire.RoundTrip | src/common/message.cpp:388-452 | an encoded message within the limit parses to itself, whatever follows, and every proper prefix asks for more |
| Wire.RoundTripInFragments | src/common/message.cpp:388-452 | the same for any cutting into fragments |
| Wire.AcceptedIsCanonical | src/common/message.cpp:388-452 | an accepted message fits its fields and encodes back to the accepted bytes exactly when it has no data or is a SendFileReq |
| Wire.RejectedIs | src/common/message.cpp:418-452 | what is rejected: a header of another kind (EBADMSG), then one over the size limit (EMSGSIZE), then a complete body that is the encoding of no body of its kind (EBADMSG) |
| Wire.LimitIsExactIff | src/common/message.cpp:439-442 | when the size check decides as the true sum would |
| Wire.LimitCanBeMissed | src/common/message.cpp:439-442 | a header over the limit that passes |
| Wire.DataCanBeLost | src/common/message.cpp:388-452 | a reply of a kind without data, with one byte of it, is accepted and encodes back to less than was read |
| Codec.ByteSwap | src/common/message.cpp:31-51 | memory of the result is the argument in network order, and the other way round |
| Codec.AppendInt | src/common/message.cpp:61-65 | appends the low bytes of the integer, most significant first |
| Codec.AppendString | src/common/message.cpp:67-71 | appends the length and the string |
| Codec.DecodeInt | src/common/message.cpp:73-83 | succeeds, and moves pos, exactly as reading the rest of the buffer does |
| Codec.DecodeString | src/common/message.cpp:85-100 | the same for a string |
| Codec.DecodeTargets | src/common/message.cpp:361-367 | the loop stops with all targets read, or before the first malformed one |
| Codec.DecodeSetChainReqBody | src/common/message.cpp:355-370 | accepts exactly the encodings of a SetChainReq |
| Codec.EncodeSetChainReq | src/common/message.cpp:372-386 | the loop writes the body's encoding |
| Codec.MessageBase.Absorb | src/common/message.cpp:179-214 | body and data buffers together hold exactly what came, up to what the header announced |
| Codec.MessageBase.AppendBody | src/common/message.cpp:179-217 | 0, 1 or -1 as the payload given so far is incomplete, a message or malformed |
| Codec.FcopyMessage.Append | src/common/message.cpp:418-452 | the code, errno and message are those of parsing all bytes given so far; 0 keeps the object receiving |
| Codec.FcopyMessage.Receive | src/common/message.cpp:418-452 | feeding fragments to append up to the first nonzero code gives the verdict on the whole stream |
| Codec.FcopyMessage.Encode | src/common/message.cpp:388-416 | the vectors in order are the message's encoding, and the message is unchanged |
| Codec.FcopyMessage.MoveMessage | src/common/message.h:289-298 | only a message of the kind asked for leaves the object |
| Codec.Request | src/common/co_fcopy.h:53-69 | sends the encoding of the request; gives the transport's error, or the message that came if it is of the kind asked for, or EBADMSG |
| Transport.RequestsAreAligned | src/server/service.cpp:14-31 | every request below a request of the chunk, at any depth, carries the client's own unpadded bytes, and its padded write has offset and length divisible by 8192 and at most a chunk |
| Transport.RunIsAligned | src/server/service.cpp:66-92 | the same for everything in flight in any run |
| Transport.RequestTravels | src/server/service.cpp:77-92 | a request at any depth is read by its receiver, in any fragments, with its own offset, token, hops, size and bytes |
| Transport.RunTravels | src/client/file_sender.cpp:117-128 | in every run the request a worker has out is read with the offset and the bytes of the chunk that the worker holds and the token of the first target |
| Transport.ReplyTravels | src/server/service.cpp:283 | an error that a handler answers, narrowed to 16 bits, is the one its caller reads, in a reply to SEND_FILE without data |
| Codec.MessageBase.SetData | src/common/message.cpp:114-142 | the message becomes the same one with this data, and stays ready to be encoded |
| Codec.MessageBase.SetError | src/common/message.h:53 | the message becomes the same one with the error narrowed to 16 bits |
| Structures.Int16Exact | src/common/message.h:53 | narrowing keeps an error modulo 65536, and exactly when it fits 16 bits; 65536 becomes 0 |
| Structures.Int16Idempotent | src/common/message.h:53 | an error narrowed once passes every further hop unchanged |

## Left out

- Coke and Workflow: sockets, timeouts, connection reuse, threads. They are the atomic steps and the request assumption above.
- Speed limiter, cost and speed figures, logging, usage text, option parsing, daemonising, signals, configuration files.
- `chunk_size` of a table entry is never set by the code and is not modelled; `token_map` is unused; `set_range`, DELETE_FILE and `file_perm` have no behaviour; `compress_type`, `crc32` and `origin_size` are carried only.
- `get_partition_dir`, `get_abs_path`, `create_directories` and `get_full_path`: file-system answers, here parameters. The text a failing create puts into the token is not modelled.
- `do_check_self` builds strings from local addresses; distinctness of targets is derived instead.
- Allocation failure is an error in `parallel_send` and `write_file`, and does not happen in the codec.
- Other uploads of the same path at the same time, and repeated requests that arrive after a later request of the same upload: the code promises nothing there.
- Which values the client and the handlers put into CreateFileReq, CloseFileReq, SetChainReq and their replies is in `Opening`, `Linking` and `Closing`, not in `Transport`; their bytes are in `Wire` and `Codec`.
- Relay.CallStepKeeps: repeats are bounded by `retries` for each request, and end before the next begins.
- Entries.TurnKeeps: what others do between two executions of one request is told before the first, and what they do during the send phase at its end; both are about other entries, and for the send phase OthersDoNotMatter shows that it makes no difference.
- FileSender.FileSender.FinishCloses: late closes are carried out in the order of the targets; they concern distinct servers, whose tables and files are separate.
- FileSender.FileSender.UploadFile: closes the client's descriptor only as a number; descriptor 0 is kept open, as in the code.
- Codec.MessageBase.AppendBody: a data view is the bytes it shows, not a reference into a buffer, and a body that fails to decode leaves the fields as they were instead of partly filled.
- Codec.ByteSwap: the little-endian branch; on a big-endian machine the code copies.
- Codec.FcopyMessage.MoveMessage: hands over the object instead of moving its fields into another.
