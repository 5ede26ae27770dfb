# Verified models of the CRT bindings

A Dafny model of the stateful parts of the AWS Common Runtime bindings for Node.js and the browser,
with proofs about every input and every run. `dafny verify dfyconfig.toml` checks all of it.

| file | models |
|---|---|
| `InputStream.dfy` | the native input stream: a fixed buffer, appends from Node, reads and seeks from an event loop, only partly under the lock |
| `HttpStream.dfy` | the order of body and completion callbacks, kept by an atomic length and by requeueing |
| `PublishOwnership.dfy` | reference counts of an `on_publish` threadsafe function and ownership of message blocks |
| `KeySplit.dfy`, `TopicTree.dfy`, `Trie.dfy` | the trie, its topic variant with MQTT wildcards, and the linked nodes that implement both |
| `ConnectionPool.dfy` | the browser's connection manager |
| `HttpHeaders.dfy` | the browser's header index and the native header list |
| `LogQueue.dfy` | the log queue with many writers, batch drain and a ring-buffer allocator |
| `EventEmitter.dfy`, `BufferedEmitter.dfy` | the corked event emitter, as a value and as a linked queue changed in place |
| `Checksums.dfy`, `Polynomials.dfy`, `Words.dfy` | CRC-32 and CRC-32C over buffers longer than a C `int` can say, as remainders of polynomials over GF(2) |
| `Runs.dfy`, `Machine.dfy` | runs of an event-driven system with the induction principle they share; bytes and machine integers |

Each protocol has the same shape. A value type and a partial step function `Next` say what can happen.
Between the threads every unlocked access is a step of its own, and queueing a call takes a reference in
one step and enters the queue in the next, so that a run is any interleaving; only the requeueing of a
completion call is one step, because the event loop has then finished and Node runs one callback at a time.
The main results hold after every run. A class holds the code as it is written, fields updated in place,
and each of its methods is proved equal to a value function or to a run of the steps. History the source
does not keep (bytes accepted, messages freed, requests settled) is part of the state, which is what
conservation and exactly-once results are stated about.

The following is assumed of code that is not part of this model: N-API threadsafe functions deliver
queued calls first in, first out, one at a time; the HTTP library reports the body before completion and
completion once; the MQTT client destroys a subscription when no message for it is being handled;
`aws_byte_buf_append` and `aws_byte_buf_write` refuse what does not fit and then change nothing.

## What holds only on a condition

The code is modelled as it is. Where a promise fails, the model gives the failing input and the exact condition.

- A read passes its new position as a signed 64-bit offset, so it consumes what it delivered exactly while that position is below 2^63 (`CommitConsumesExactlyIff`). A seek that drops part of the buffer, the one inside a read too, leaves `bytes_read` where it was (`PositionFollowsSeekIff`), so a later absolute seek may keep other bytes than those from its offset on (`SeekToZeroKeepsTheSecondByte`). It keeps the right ones exactly when `bytes_read` counts every byte that has left (`AbsoluteSeekIsExactIff`), and that is so after a run exactly when each of its reads and seeks removed nothing or everything buffered (`PositionIsExactIff`). The comments on seek ask for an offset greater than the bytes read, or negative from the end; the code also accepts the equal offset and zero, and the model follows the code.
- Completion may overtake a zero-length body chunk (`EmptyChunkMayBeOvertaken`). For a body shorter than 2^64 bytes every chunk precedes completion in every run exactly when the last chunk is not empty (`LastChunkDecides`); for any body, exactly when no tail of the chunks adds up to a multiple of 2^64 (`EveryChunkPrecedesCompletionIff`).
- A publish callback without an environment does not give back the reference its queue entry took, so the count then stays above zero (`ReferencesMatchHolders`, and for one message `CallWithoutEnvironmentLeavesAReference`).
- The topic walk does not backtrack (`SiblingsHideAFilter`), and its `#` does not cover the parent level that section 4.7.1 of MQTT 3.1.1 gives it: `a/#` alone in the trie is missed by the topic `a` (`ParentLevelIsMissed`, `ReadingsDifferOnlyAtTheParent`). A filter is found by every topic it matches under that section exactly when it does not end in a `#` below another level and none of its wildcard levels has a sibling the walk prefers: `+` must be an only child, and `#` may have no sibling but `+` (`FilterIsFoundIff`; for the callbacks stored `CallbackIsFoundIff`, for a whole trie `StoredFiltersAreFoundIff`). The condition on siblings alone is exact where `#` is read as covering at least one level (`FilterIsReachedIff`). Nodes without a callback are all reached, in that reading, exactly when wildcards are only children (`WalkIsCompleteIff`).
- A subscription is stored at its own filter, as by the plain trie, exactly when no `#` or `+` stands beside the first level of the filter that is missing (`SubscribeIsInsertIff`); otherwise it lands on that wildcard node.
- Unsubscribing a filter that was never subscribed may cut off another one: `a` cuts `+` with everything below. It deletes what the filter itself names exactly when that has a node or the walk for it reaches none (`UnsubscribeIsRemoveIff`, `UnsubscribeCutsAnother`).
- A pool connection enters the free list twice when it connects, so two callers may hold it (`SecondRequestSharesTheConnection`); never more than two do. A comment says that a connection with an error goes out of rotation; it loses one of its two places and can be served again exactly while it has one left, which after a first error or close it always has (`ConnectionIsServedAgainIff`, `FirstRemovalLeavesAPlace`). The capacity guard tests equality, so a negative limit never stops anything (`NegativeLimitIsNoLimit`). The limit bounds live and pending connections; one that was removed while held does not count, so with a limit of one two can be in use (`RemovedConnectionExceedsTheLimit`). Of the connections in use those never removed stay within the limit (`PlacesAreWithinTheLimit`).
- The log allocator sees its blocks released in allocation order with one writer; overlapping writers can break that order (`OverlappingWritesBreakRingOrder`). What has been pushed drains in allocation order exactly when its blocks, in push order, are the first ones allocated (`RingOrderIff`).
- The documentation of `uncork` promises to flush everything buffered since `cork`. That holds through the first drain of a non-empty queue; after it every buffered event is lost, because `lastQueuedEvent` is never reset (`LaterBufferedEventsAreLost`). An event buffered after an uncork is kept exactly when nothing had ever been queued before it (`NextCorkLosesEventsIff`).
- `HttpHeaders.get` of the browser documents the default for missing names only; it also returns it where the first value is empty (`BrowserHeaders.Get`).

`ConnectKeepsTheBoundIff` is about the manager with any kind of connection; those of this library connect
from a timer, before anyone can close them.

## Model

| member | source | states |
|---|---|---|
| InputStream.SeekTarget | source/io.c:623-658 | for every offset and basis, the offset computed with the widths of the source meets both bounds the source asserts |
| InputStream.SeekMeaning | source/io.c:620-672 | a seek is accepted exactly in the stated range per basis; a rejected seek changes nothing; BEGIN keeps exactly the suffix from offset minus bytes read, END by minus k exactly the last k bytes; the position moves only when the buffer is emptied |
| InputStream.PositionFollowsSeekIff | source/io.c:660-667 | the position equals an accepted BEGIN offset if and only if the seek goes nowhere or to the very end |
| InputStream.InputStreamImpl.constructor | source/io.c:741-758 | a new stream is empty, at position zero, not ended, with 16 KiB of room |
| InputStream.InputStreamImpl.MoveToFront | source/io.c:665 | an overlapping move to the front of the buffer yields the old bytes |
| InputStream.InputStreamImpl.FindTarget | source/io.c:627-658 | the outcome and the buffer offset are those of SeekTarget |
| InputStream.InputStreamImpl.DropFront | source/io.c:660-667 | the buffer without its first bytes, moved to the front; the position advances only when nothing is left |
| InputStream.InputStreamImpl.SeekTo | source/io.c:620-672 | the in-place seek has the outcome and the new state of Seek, in the same array |
| InputStream.InputStreamImpl.Append | source/io.c:794-817 | null sets the end flag; data is appended whole exactly when it fits the 16 KiB and dropped whole otherwise |
| InputStream.InputStreamImpl.Read | source/io.c:674-689 | delivers the longest prefix that fits and leaves the state of ReadRuns; what it delivered is removed from the buffer exactly when the new position is below 2^63 (or nothing was delivered), otherwise nothing changes |
| InputStream.ReadRuns | source/io.c:674-689 | a read that nothing interrupts is a run of its unlocked and locked steps (both samples, the copy byte by byte, the seek) that hands over what fits and seeks past it |
| InputStream.SeekDropsPrefix | source/io.c:660-667 | every seek, accepted or not, removes a prefix of the buffer and keeps the rest |
| InputStream.SoughtKeepsInv | source/io.c:620-672 | a seek conserves bytes removed plus bytes buffered and never moves the position past what was removed |
| InputStream.CommitConsumesExactlyIff | source/io.c:686-688 | the seek inside a read removes exactly the delivered bytes if and only if the new position is below 2^63 or nothing was read |
| InputStream.CommitKeepsInv | source/io.c:686-688 | the locked seek of a read keeps the conservation invariant whatever was appended since the copy |
| InputStream.AppendKeepsInv | source/io.c:815-817 | an append at any point of a read keeps the invariant |
| InputStream.AppendTakesDataIff | source/io.c:755-817 | wherever a read stands, data is taken whole if and only if buffer and data together fit 16384 bytes, and the read does not notice |
| InputStream.EndIsMarkedIff | source/io.c:794-800 | the stream is marked as ended after a run if and only if the run appended null |
| InputStream.StepKeepsInv | source/io.c:674-689 | every step of a read, append or seek keeps the invariant |
| InputStream.BytesAreConserved | source/io.c:674-689 | in every interleaving, removed bytes followed by buffered bytes are the accepted bytes; without seeks of the caller's own, and below 2^63 bytes, delivered bytes followed by buffered bytes are too |
| InputStream.FailedReadConsumesNothing | source/io.c:677-684 | a read fails exactly if the buffer outgrew the destination between the two samples of its length, and then delivers and consumes nothing |
| InputStream.AbsoluteSeekIsExactIff | source/io.c:629-667 | an accepted seek from the beginning keeps exactly the accepted bytes from its offset on, if and only if the position counts every byte that has left |
| InputStream.PositionIsExactIff | source/io.c:660-667 | the position counts every byte that has left after a run if and only if every removal of the run took all that was buffered |
| InputStream.SeekToZeroKeepsTheSecondByte | source/io.c:660-687 | a run that reads one byte of two, after which a seek to zero succeeds and keeps the second byte |
| HttpStream.StepKeepsCount | source/http_stream.c:130-172 | every step keeps the counter equal, modulo 2^64, to the summed lengths of chunks queued or about to be queued |
| HttpStream.StepKeepsOrder | source/http_stream.c:130-172 | every step keeps dispatched, in-hand and outstanding chunks equal to the received ones in order |
| HttpStream.StepKeepsCompletion | source/http_stream.c:179-215 | every step keeps one completion at most, and both reference counts equal to their holders |
| HttpStream.CompletionComesAfterTheBody | source/http_stream.c:130-205 | in every run, once completion is handed over, every non-empty chunk received has been dispatched in order and byte for byte, unless the queued lengths sum to a non-zero multiple of 2^64; completion happens at most once |
| HttpStream.EmptyChunkMayBeOvertaken | source/http_stream.c:162-163 | a run in which completion is handed over while a zero-length chunk is still queued |
| HttpStream.OvertakingRunCompletes | source/http_stream.c:130-205 | any tail of the chunks whose lengths vanish in the counter can be left queued when completion is handed over |
| HttpStream.EveryChunkPrecedesCompletionIff | source/http_stream.c:130-205 | for every list of chunks: each run that receives them and completes has dispatched all of them, if and only if no tail of the list adds up to a multiple of 2^64 |
| HttpStream.LastChunkDecides | source/http_stream.c:130-205 | for every list shorter than 2^64 bytes: nothing is overtaken in any run if and only if the list is empty or its last chunk is not |
| HttpStream.EveryBytePrecedesCompletionIff | source/http_stream.c:130-205 | for every list of chunks: every byte precedes completion in every run if and only if no tail adds up to a non-zero multiple of 2^64 |
| HttpStream.WaitingCompletionHasABodyCall | source/http_stream.c:182-189 | a completion call that must wait leaves exactly one entry, changes nothing else, and a body call is queued for it to wait for |
| HttpStream.BodyQueueShrinks | source/http_stream.c:130-149 | after the event loop is done, body calls and nothing else shorten the body queue, by one each |
| HttpStream.RequeueingEnds | source/http_stream.c:182-205 | once a schedule has served the queued bodies, the next completion call completes with the queued error code and drops the last reference |
| HttpStream.CompletionFunctionStaysAlive | source/http_stream.c:182-201 | the completion function has one reference plus one per queued entry, three while requeueing, and none exactly after completion |
| HttpStream.ReportsReachJavaScript | source/http_stream.c:151-215 | in every run the chunks received are those the HTTP library reported, and the code handed over is the one it reported |
| HttpStream.HttpStreamBinding.constructor | source/http_stream.c:227-345 | a new binding has nothing pending, nothing queued and one reference per function given |
| HttpStream.HttpStreamBinding.OnResponseBody | source/http_stream.c:151-172 | is the run count, acquire, queue of the protocol, or nothing without a body handler |
| HttpStream.HttpStreamBinding.OnBodyCall | source/http_stream.c:130-149 | hands over the oldest chunk and is the run uncount, dispatch |
| HttpStream.HttpStreamBinding.OnComplete | source/http_stream.c:207-215 | is the run acquire, queue of the completion |
| HttpStream.HttpStreamBinding.OnCompleteCall | source/http_stream.c:179-205 | requeues, as a run of the protocol, while anything is pending; otherwise completes with the queued error code |
| PublishOwnership.StepKeepsRefs | source/mqtt_client_connection.c:1094-1261 | every step keeps the count equal to one for the subscription, two per queued message, and what each thread has in hand |
| PublishOwnership.StepKeepsArgs | source/mqtt_client_connection.c:1125-1144 | every step keeps each argument block held once or freed once |
| PublishOwnership.StepKeepsPayload | source/mqtt_client_connection.c:1136-1156 | every step keeps each payload owned by one argument block, wrapped by one ArrayBuffer, or freed once |
| PublishOwnership.ReferencesMatchHolders | source/mqtt_client_connection.c:1094-1261 | in every interleaving the count is one if subscribed plus two per queued message (plus one per call that had no environment), and zero exactly after unsubscribe and full drain with no such call |
| PublishOwnership.CallWithoutEnvironmentLeavesAReference | source/mqtt_client_connection.c:1158-1192 | publish, call without an environment, unsubscribe: nothing is held and one reference is left |
| PublishOwnership.BlocksAreFreedOnce | source/mqtt_client_connection.c:1125-1192 | in every interleaving each block is freed at most once, exactly when nobody can reach it, and a payload never by both destructor and finalizer |
| PublishOwnership.NothingIsLeftBehind | source/mqtt_client_connection.c:1125-1192 | with nothing queued, in hand or wrapped, every block ever allocated has been freed once |
| PublishOwnership.StepKeepsTaken | source/mqtt_client_connection.c:1158-1192 | every step keeps calls ended, in hand and queued equal to the messages ever queued |
| PublishOwnership.MessagesArriveInOrder | source/mqtt_client_connection.c:1158-1261 | in every interleaving messages reach JavaScript in publish order, each at most once; calls ended, in hand and queued are the messages ever queued, in order, and exactly those ended with an environment were dispatched |
| PublishOwnership.PublishEffect | source/mqtt_client_connection.c:1195-1261 | the whole of s_on_publish, on success and on each failure, is a run of the protocol with the stated net effect: two references and one queue entry, or everything undone |
| PublishOwnership.CallEffect | source/mqtt_client_connection.c:1158-1192 | the whole of s_on_publish_call is a run that gives back two references and the payload's ownership, or, without an environment, one reference and frees the payload |
| PublishOwnership.CompleteMessagesAreQueued | source/mqtt_client_connection.c:1234-1261 | a message is queued if and only if its topic and payload were copied; otherwise its block is freed |
| PublishOwnership.CallsWithEnvironmentDispatch | source/mqtt_client_connection.c:1158-1192 | the oldest message is handed to JavaScript, and its payload to an ArrayBuffer, if and only if there is an environment; it leaves the queue in any case |
| PublishOwnership.FinalizerFreesThePayload | source/mqtt_client_connection.c:1146-1156 | the finalizer frees the payload its ArrayBuffer wraps and nothing else |
| PublishOwnership.OnPublishFunction.constructor | source/module.c:398-411 | a new function has the one reference its creator holds |
| PublishOwnership.OnPublishFunction.DestroyOnPublishArgs | source/mqtt_client_connection.c:1125-1144 | gives back one reference, frees the block, and frees the payload if the block still owns it |
| PublishOwnership.OnPublishFunction.OnPublish | source/mqtt_client_connection.c:1195-1261 | has the net effect proved of the protocol for each way it can end |
| PublishOwnership.OnPublishFunction.OnPublishCall | source/mqtt_client_connection.c:1158-1192 | has the net effect proved of the protocol, with and without an environment |
| PublishOwnership.OnPublishFunction.DestroySubscription | source/mqtt_client_connection.c:1094-1107 | is the unsubscribe step |
| PublishOwnership.OnPublishFunction.FinalizeArrayBuffer | source/mqtt_client_connection.c:1146-1156 | is the finalizer step: the payload leaves the ArrayBuffer and is freed |
| KeySplit.JoinSplit | lib/browser/trie.ts:30-34 | joining the parts of a key with the delimiter gives the key back |
| KeySplit.PartsHoldNoDelimiter | lib/browser/trie.ts:30-34 | no part contains the delimiter, so no cut was missed |
| KeySplit.SplitMeaning | lib/browser/trie.ts:30-34 | each cut is at the first occurrence of the delimiter; an empty delimiter cuts out each character |
| KeySplit.SplitIsInjective | lib/browser/trie.ts:30-34 | two keys have the same parts exactly when they are equal |
| TopicTree.InsertMeaning | lib/browser/trie.ts:62-65 | insert changes the value at one path and at no other, and every node keeps its parent |
| TopicTree.RemoveMeaning | lib/browser/trie.ts:56-69 | remove deletes exactly the paths that extend the given one |
| TopicTree.StepAgrees | lib/browser/trie.ts:62-74 | one insert or remove keeps the trie equal to the finite map on every key |
| TopicTree.TrieRefinesMap | lib/browser/trie.ts:29-74 | after any sequence of inserts and removes the trie answers every key as a finite map on strings does |
| TopicTree.ReadingsDifferOnlyAtTheParent | lib/browser/mqtt.ts:154-158 | the filter reading the walk implements equals that of section 4.7.1 of MQTT 3.1.1 except on the parent level of a trailing `#` |
| TopicTree.StandardExamples | lib/browser/mqtt.ts:148-177 | the reference reading of filters answers examples of section 4.7.1 of MQTT 3.1.1 as the section does |
| TopicTree.WalkIsSound | lib/browser/mqtt.ts:148-177 | from any node of any tree, the path walked reads as a filter that matches what was walked |
| TopicTree.LookupIsSound | lib/browser/mqtt.ts:148-177 | in any tree, the path of the node found for a wildcard-free topic is a filter that matches it under section 4.7.1 of MQTT 3.1.1 |
| TopicTree.UnshadowedIsReached | lib/browser/mqtt.ts:148-177 | from any node, the walk ends at a stored path that matches and has no preferred sibling at a wildcard level |
| TopicTree.ShadowedIsMissed | lib/browser/mqtt.ts:153-160 | for any filter with a preferred sibling at a wildcard level there is a topic it matches whose walk does not end there |
| TopicTree.FilterIsReachedIff | lib/browser/mqtt.ts:148-177 | with `#` covering at least one level, a filter is found by every topic it matches if and only if no wildcard level of it has a preferred sibling |
| TopicTree.ParentTopicIsMissed | lib/browser/mqtt.ts:154-158 | in any trie, for every filter that ends in `#` below another level there is a topic it matches under section 4.7.1 whose walk does not end there |
| TopicTree.FilterIsFoundIff | lib/browser/mqtt.ts:148-177 | a filter is found by every topic it matches under section 4.7.1 of MQTT 3.1.1 if and only if no wildcard level of it has a preferred sibling and it does not end in `#` below another level |
| TopicTree.CallbackIsFoundIff | lib/browser/mqtt.ts:148-177 | whatever callback is stored for a filter, every topic it matches under section 4.7.1 gets it, if and only if the condition of FilterIsFoundIff holds |
| TopicTree.StoredFiltersAreFoundIff | lib/browser/mqtt.ts:148-177 | every stored filter is found by every topic it matches under section 4.7.1 if and only if that condition holds for every stored filter |
| TopicTree.LookupMeetsTheStandard | lib/browser/mqtt.ts:148-177 | under that condition a lookup finds a value exactly when a stored filter matches under section 4.7.1, and it is that filter's value |
| TopicTree.ParentLevelIsMissed | lib/browser/mqtt.ts:154-158 | `a/#` alone in the trie matches `a` under section 4.7.1 and is not found by it |
| TopicTree.LookupFindsStoredFilters | lib/browser/mqtt.ts:148-177 | with `#` covering at least one level and no stored filter shadowed, a lookup finds a value exactly when a stored filter matches, and it is that filter's value |
| TopicTree.WalkIsCompleteIff | lib/browser/mqtt.ts:148-177 | the walk ends at every matching node, with or without a value, for every topic, if and only if wildcards are only children |
| TopicTree.LookupIsComplete | lib/browser/mqtt.ts:148-177 | where wildcards are only children a lookup answers as every matching node does, values or not |
| TopicTree.SiblingsHideAFilter | lib/browser/mqtt.ts:153-160 | a trie and a topic for which a matching filter is missed |
| TopicTree.GrowTopicAddsBelow | lib/browser/mqtt.ts:161-165 | an insert walk keeps every node and value and adds only empty nodes strictly below where it starts |
| TopicTree.WalkAgain | lib/browser/mqtt.ts:148-177 | a walk after an insert walk for the same key ends at the same node |
| TopicTree.LookupAfterSubscribe | lib/browser/mqtt.ts:148-177 | in any trie, find right after insert of the same key returns the inserted value, wildcards and fallbacks included |
| TopicTree.SubscribeIsInsertIff | lib/browser/mqtt.ts:148-177 | a subscription is stored at its own filter, and is the insert of the plain trie, if and only if no `#` or `+` stands beside the filter's first missing level |
| TopicTree.SubscribeChangesOnePath | lib/browser/mqtt.ts:443-444 | wherever a subscription is stored, the value of that path changes and of no other |
| TopicTree.SubscriptionIsFound | lib/browser/mqtt.ts:148-177 | a subscription stored at its own filter and in view answers every topic it matches under section 4.7.1 |
| TopicTree.FirstSubscriptionIsFound | lib/browser/mqtt.ts:148-177 | the first subscription, whatever its wildcards, is found by every topic its filter matches with `#` covering at least one level |
| TopicTree.SubscribeStaysClosed | lib/browser/mqtt.ts:161-165 | after an insert walk every node still hangs from its parent and the node found exists |
| TopicTree.TopicTrieAfterAnyRun | lib/browser/mqtt.ts:148-177 | after any subscribes and unsubscribes, what a topic finds is a filter matching it, and the completeness condition applies |
| TopicTree.WalkWithoutWildcards | lib/browser/mqtt.ts:148-177 | without wildcard nodes the walk finds exactly the given path |
| TopicTree.TopicTrieIsPlainWithoutWildcards | lib/browser/mqtt.ts:142-178 | on a trie and a key without wildcard levels, find, insert and remove are those of the plain trie |
| TopicTree.TopicRunsArePlain | lib/browser/mqtt.ts:142-178 | over every sequence of operations whose keys have no wildcard level the two tries stay equal |
| TopicTree.TopicTrieRefinesMapWithoutWildcards | lib/browser/mqtt.ts:142-178 | after every such sequence a topic without wildcards finds what the finite map on strings holds |
| TopicTree.UnsubscribeIsRemoveIff | lib/browser/mqtt.ts:148-177 | an unsubscribe deletes exactly the paths that extend the one its walk reaches; that is what the filter itself names if and only if the filter has a node or its walk reaches none |
| TopicTree.UnsubscribeCutsAnother | lib/browser/mqtt.ts:148-177 | unsubscribing `a` where only `+` exists deletes `+` and everything below |
| TrieNodes.LinkedAfterAdding | lib/browser/trie.ts:46-48 | hanging a new leaf keeps all links and paths |
| TrieNodes.LinkedAfterCutting | lib/browser/trie.ts:56-58 | cutting one link leaves exactly the links among nodes not below it |
| TrieNodes.Trie.constructor | lib/browser/trie.ts:25-37 | a new trie is the empty tree |
| TrieNodes.Trie.RemoveChild | lib/browser/trie.ts:56-58 | deleting a child by its stored key cuts exactly the subtree at its path |
| TrieNodes.Trie.Level | lib/browser/trie.ts:43-55 | one iteration: the walk is one part further, or a node is missing and nothing changed |
| TrieNodes.Trie.Descend | lib/browser/trie.ts:40-55 | the loop ends at the node of the path with its parent, having created exactly the missing nodes, or nothing when not inserting |
| TrieNodes.Trie.FindNode | lib/browser/trie.ts:39-60 | the linked structure afterwards is the grown, cut or unchanged tree, and the node returned is the one at the key's path |
| TrieNodes.Trie.Insert | lib/browser/trie.ts:62-65 | the linked structure becomes the tree after insert |
| TrieNodes.Trie.Remove | lib/browser/trie.ts:67-69 | the linked structure becomes the tree after remove |
| TrieNodes.Trie.Find | lib/browser/trie.ts:71-74 | the value stored at the key's path, the structure unchanged |
| TrieNodes.Trie.TopicChild | lib/browser/mqtt.ts:153-168 | the part itself, else `#`, else `+`, else a new node when inserting; what exists is not changed |
| TrieNodes.Trie.TopicLevel | lib/browser/mqtt.ts:152-171 | one iteration leaves the rest of the walk to be done from the child, or ends it as the tree walk ends |
| TrieNodes.Trie.TopicLoop | lib/browser/mqtt.ts:149-171 | the loop stands at the end of the parts with the walk's result still to come from there, or has ended early as the walk does |
| TrieNodes.Trie.TopicDescend | lib/browser/mqtt.ts:149-171 | the loop ends where the walk on the tree it began with ends, by the same way of ending, with the node's parent |
| TrieNodes.Trie.DeleteFound | lib/browser/mqtt.ts:156-175 | a node reached part by part is cut off; one met through `#` stays |
| TrieNodes.Trie.FindTopicNode | lib/browser/mqtt.ts:148-177 | the linked structure afterwards is the tree after the topic insert, removal or search, and the node is the one the tree walk ends at |
| TrieNodes.Trie.Subscribe | lib/browser/mqtt.ts:443-444 | the linked structure becomes the tree after the topic insert |
| TrieNodes.Trie.Unsubscribe | lib/browser/mqtt.ts:465-466 | the linked structure becomes the tree after the topic removal |
| TrieNodes.Trie.OnMessage | lib/browser/mqtt.ts:354-361 | the callback is the value the tree lookup gives, the structure unchanged |
| ConnectionPool.StepKeepsBound | lib/browser/http.ts:536-640 | every event keeps live and pending disjoint and within the limit, and pending equal to those that neither connected nor closed |
| ConnectionPool.CapacityIsRespected | lib/browser/http.ts:561-609 | in every run in which each connection connects at most once and before it closes, live and pending connections are disjoint and together within a non-negative limit |
| ConnectionPool.NegativeLimitIsNoLimit | lib/browser/http.ts:574-576 | with a negative limit n requests open n connections, for every n |
| ConnectionPool.ConnectKeepsTheBoundIff | lib/browser/http.ts:587-592 | a connect event keeps the bound if and only if its connection is already counted or there is room |
| ConnectionPool.PumpKeepsHolders | lib/browser/http.ts:561-576 | pumping moves a connection between free list and caller without changing how many places it has |
| ConnectionPool.StepKeepsLeases | lib/browser/http.ts:545-633 | every event keeps a connected, not removed connection at two places and any connection at no more |
| ConnectionPool.EveryConnectionHasTwoPlaces | lib/browser/http.ts:545-633 | in every run places in the free list plus leases are two for a connected, not removed connection, and nobody gets one that never connected |
| ConnectionPool.PlacesAreWithinTheLimit | lib/browser/http.ts:536-633 | in every run, of any connections free or with a caller those never removed are within the limit |
| ConnectionPool.RemovedConnectionExceedsTheLimit | lib/browser/http.ts:593-601 | a run with a limit of one after which two connections are with callers |
| ConnectionPool.SecondRequestSharesTheConnection | lib/browser/http.ts:587-592 | the run acquire, connect, acquire gives both callers the same connection |
| ConnectionPool.GoneIsNeverServed | lib/browser/http.ts:536-609 | a connected connection without a place in the free list or with a caller is not served in any later run |
| ConnectionPool.ConnectionIsServedAgainIff | lib/browser/http.ts:536-633 | a connected connection, removed or not, can be served again if and only if it has such a place |
| ConnectionPool.FirstRemovalLeavesAPlace | lib/browser/http.ts:593-605 | after every run, the first error or close of a connected connection leaves it one place, or two if it was not free, and so it can be served again |
| ConnectionPool.StepKeepsOrder | lib/browser/http.ts:545-640 | every event keeps settled requests followed by waiting ones equal to the requests made |
| ConnectionPool.RequestsLeaveInOrder | lib/browser/http.ts:545-633 | in every run requests leave in acquire order, each at most once, served or rejected |
| ConnectionPool.EventsMakeProgress | lib/browser/http.ts:561-633 | after every run, with a request waiting, an acquire, release, close or error after connecting serves the oldest request with the last free connection, or opens one more connection unless the pool is full |
| ConnectionPool.ConnectServes | lib/browser/http.ts:587-592 | a connect makes the connection live, serves the oldest waiting request with it and leaves its second place free |
| ConnectionPool.PendingErrorRejects | lib/browser/http.ts:593-597 | an error of a connection that never connected rejects the oldest waiting request and changes nothing else |
| ConnectionPool.HttpClientConnectionManager.constructor | lib/browser/http.ts:503-534 | a new manager is the empty pool |
| ConnectionPool.HttpClientConnectionManager.FindFree | lib/browser/http.ts:539 | the first place of the connection in the free list, or minus one |
| ConnectionPool.HttpClientConnectionManager.RemoveConnection | lib/browser/http.ts:536-543 | the pool becomes the one after Remove: out of both sets and one place less in the free list |
| ConnectionPool.HttpClientConnectionManager.ResolveNext | lib/browser/http.ts:545-552 | the pool becomes the one after Resolve: one place more, with the oldest request or in the free list |
| ConnectionPool.HttpClientConnectionManager.RejectNext | lib/browser/http.ts:554-559 | the pool becomes the one after Reject: the oldest request leaves with an error |
| ConnectionPool.HttpClientConnectionManager.PumpRequests | lib/browser/http.ts:561-609 | the pool becomes the one after Pump |
| ConnectionPool.HttpClientConnectionManager.AcquireConnection | lib/browser/http.ts:616-624 | the pool becomes the one after Acquire, for the newest request |
| ConnectionPool.HttpClientConnectionManager.ReleaseConnection | lib/browser/http.ts:630-633 | the pool becomes the one after Release |
| ConnectionPool.HttpClientConnectionManager.HandleConnect | lib/browser/http.ts:587-592 | the pool becomes the one after OnConnect |
| ConnectionPool.HttpClientConnectionManager.HandleError | lib/browser/http.ts:593-601 | the pool becomes the one after OnError, of which PendingErrorRejects and EventsMakeProgress speak |
| ConnectionPool.HttpClientConnectionManager.HandleClose | lib/browser/http.ts:602-605 | the pool becomes the one after OnClose |
| HttpHeaders.SameSelectionsPermute | lib/browser/http.ts:163-170 | two lists with the same headers per name, in order, are permutations of each other |
| HttpHeaders.FoldedEqualIff | lib/browser/http.ts:67-74 | two names share an index key if and only if they have the same length and differ in the case of ASCII letters only |
| HttpHeaders.SelectedValues | source/http_headers.c:346-357 | the entries under a folded name hold the values that a reader of the list finds for it, case ignored, in list order |
| HttpHeaders.ErasedValues | lib/browser/http.ts:117-119 | removing a name takes all its values, case ignored, and leaves those of every other name |
| HttpHeaders.BuildAgrees | lib/browser/http.ts:43-47 | an index built from a list answers like the list |
| HttpHeaders.AgreeingIndexesAreEqual | lib/browser/http.ts:36-37 | a list determines its index |
| HttpHeaders.FlattenMeaning | lib/browser/http.ts:154-170 | enumerating the index permutes the list, and rebuilding from the enumeration reproduces the index |
| HttpHeaders.StepAgrees | lib/browser/http.ts:67-146 | add, set, remove and clear keep the index in agreement with the list |
| HttpHeaders.IndexAnswersLikeTheList | lib/browser/http.ts:35-171 | after any sequence of operations every name has the same values in the same order in index and list |
| HttpHeaders.BrowserHeaders.constructor | lib/browser/http.ts:43-47 | stands for the list it was given |
| HttpHeaders.BrowserHeaders.Add | lib/browser/http.ts:67-74 | stands for the list with the header at its end |
| HttpHeaders.BrowserHeaders.Set | lib/browser/http.ts:81-83 | stands for the list without that name, ignoring case, and with the header at its end |
| HttpHeaders.BrowserHeaders.Remove | lib/browser/http.ts:117-119 | stands for the list without that name, ignoring case |
| HttpHeaders.BrowserHeaders.Clear | lib/browser/http.ts:144-146 | stands for the empty list |
| HttpHeaders.BrowserHeaders.GetValues | lib/browser/http.ts:90-97 | the values that a scan of the list finds, in list order |
| HttpHeaders.BrowserHeaders.Get | lib/browser/http.ts:105-111 | the first value in the list for the name, or the default if there is none or it is empty |
| HttpHeaders.BrowserHeaders.Length | lib/browser/http.ts:54-60 | the length of the list, for any order of the keys |
| HttpHeaders.BrowserHeaders.Flatten | lib/browser/http.ts:154-170 | a permutation of the list that keeps the order per name and rebuilds the index, for any order of the keys |
| HttpHeaders.NativeHeaders.GetValues | source/http_headers.c:333-360 | the same values of the list as the browser's index gives |
| HttpHeaders.NativeHeaders.Flatten | source/http_headers.c:465-485 | the list itself |
| HttpHeaders.NativeHeaders.IteratorNext | source/http_headers.c:524-557 | the header at the current index, which then advances, or the end, where it stays |
| LogQueue.StepKeepsMessages | source/logger.c:99-102 | every step keeps logged, swapped-out and queued messages equal to those pushed, in order |
| LogQueue.StepKeepsCounts | source/logger.c:85-105 | every step keeps queued messages within outstanding calls and pushing writers, and pins equal to their holders |
| LogQueue.MessagesAreLoggedInPushOrder | source/logger.c:61-239 | with any number of writers messages are logged in push order, none is stranded, and the pins are the context, the outstanding calls and the writers |
| LogQueue.DrainStepMoves | source/logger.c:223-234 | draining moves blocks towards release without changing their order |
| LogQueue.PushExtends | source/logger.c:99-102 | a push puts the two blocks of its message behind all others |
| LogQueue.BlocksAreReleasedInOrder | source/logger.c:93-97 | with one writer every run releases blocks in exactly the order they were acquired |
| LogQueue.BlocksAreReleasedInPushOrder | source/logger.c:93-102 | with any number of writers blocks are released in push order, all of them once the queue is drained |
| LogQueue.QueueCanBeEmptied | source/logger.c:99-105 | from every reachable state there is a run of queued calls and drains that empties the queue |
| LogQueue.RingOrderIff | source/logger.c:93-102 | in every reachable state: releases stay in allocation order through every run that drains what was pushed, if and only if the blocks pushed, in push order, are the first ones allocated |
| LogQueue.OverlappingWritesBreakRingOrder | source/logger.c:93-102 | a run of two overlapping writes that releases a block before the one acquired first |
| LogQueue.LoggerContext.constructor | source/logger.c:241-300 | a new context is the initial state: an empty queue and one reference to the drain function |
| LogQueue.LoggerContext.WriterWrite | source/logger.c:85-105 | queues the message last and is the run of the writer's five steps |
| LogQueue.LoggerContext.LogCall | source/logger.c:184-239 | logs everything queued in order and is the run of a whole drain call |
| LogQueue.WriteRuns | source/logger.c:85-105 | a write as written is a run of the writer's steps, whatever other writers are doing |
| LogQueue.DrainRuns | source/logger.c:223-238 | after the swap, the rest of a call is a run that logs and frees the messages taken, in order, and unpins |
| LogQueue.CallRuns | source/logger.c:184-239 | a call from its start to its end is a run with the stated net effect |
| EventEmitter.ReactExtends | lib/common/event.ts:80-94 | whatever listeners do, the queue only grows at its end, by exactly what is kept, and nothing is drained |
| EventEmitter.ReactWeight | lib/common/event.ts:80-94 | listeners cannot buffer more than hangs below the event they handle, which is why draining ends |
| EventEmitter.DrainKeepsInv | lib/common/event.ts:64-71 | a drain empties the queue, loses nothing and keeps drained plus queued equal to kept |
| EventEmitter.KeptEventsAreDeliveredInOrder | lib/common/event.ts:54-94 | in every run of cork, emit and uncork each event that entered the queue is delivered from it once, in order |
| EventEmitter.FirstDrainDeliversEverything | lib/common/event.ts:54-94 | from a fresh emitter through its first uncork nothing buffered is lost, also what listeners buffer meanwhile |
| EventEmitter.LaterBufferedEventsAreLost | lib/common/event.ts:64-71 | once a queue has been drained no later run delivers anything from the queue |
| EventEmitter.NextCorkLosesEventsIff | lib/common/event.ts:64-89 | an event buffered under the cork after an uncork is lost if and only if something had ever been queued before, and is kept otherwise |
| EventEmitter.EmitMeaning | lib/common/event.ts:80-94 | an emit on an uncorked emitter calls the listeners of the event next; on a corked one it calls nobody and the event is queued, or lost if the queue is stale |
| EventEmitter.CorkedEmitWaits | lib/common/event.ts:54-90 | after a cork an emit calls nobody and its event is queued or lost |
| EventEmitter.EveryEmitArrivesOnce | lib/common/event.ts:54-94 | in every run the events emitted by the caller and by every listener called are, taken together, those delivered at once, queued or lost |
| EventEmitter.UncorkLeavesCorkedIff | lib/common/event.ts:64-71 | an uncork leaves the emitter corked if and only if a listener of a queued event corks |
| BufferedEmitter.BufferedEventEmitter.constructor | lib/common/event.ts:41-48 | a new emitter is the initial state |
| BufferedEmitter.BufferedEventEmitter.BufferEvent | lib/common/event.ts:81-89 | the next links still lead from eventQueue to lastQueuedEvent, through the old chain and then the new event, or the event is out of reach exactly when Buffer loses it |
| BufferedEmitter.BufferedEventEmitter.EmitEvent | lib/common/event.ts:80-94 | the linked queue stands for the state after emit, of which EmitMeaning speaks |
| BufferedEmitter.BufferedEventEmitter.RunListeners | lib/common/event.ts:93 | listeners that cork and emit keep the links intact and extend the chain only |
| BufferedEmitter.BufferedEventEmitter.DrainFirst | lib/common/event.ts:67-69 | one turn of the loop delivers the head and drops it, listeners' additions kept |
| BufferedEmitter.BufferedEventEmitter.UncorkAll | lib/common/event.ts:64-71 | terminates with an empty queue in the state after uncork |
| Checksums.ChecksumConcat | source/checksums.c:42-48 | the checksum of a whole is that of its second part started from that of its first |
| Checksums.CrcCommon | source/checksums.c:42-48 | the chunked loop terminates with the one-shot checksum for every length and starting value |
| Checksums.ChunkedCrc32 | source/checksums.c:57-63 | both entry points give the one-shot CRC-32 (section 8 of RFC 1952) and CRC-32C (section 12.1 of RFC 3720) |
| Checksums.RegisterIsRemainder | source/checksums.c:57-63 | after any bytes the register is the remainder, modulo the generator, of x^8n times its start plus x^32 times the message |
| Checksums.ConstantsAreGenerators | source/checksums.c:57-63 | the two constants hold the generators given by their exponents in section 8 of RFC 1952 and section 12.1 of RFC 3720 |
| Checksums.ChecksumsAreRemainders | source/checksums.c:57-63 | for every buffer and previous value both checksums, complemented, are those remainders |
| Checksums.CheckValue32 | source/checksums.c:57-59 | CRC-32 of the characters 123456789 is 0xCBF43926 |
| Checksums.CheckValue32c | source/checksums.c:61-63 | CRC-32C of the characters 123456789 is 0xE3069283 |
| Polynomials.RemainderIsUnique | source/checksums.c:57-63 | a polynomial has one remainder modulo a generator |

## Left out

- InputStream.BytesAreConserved: the clause on delivered bytes is for fewer than 2^63 accepted bytes; beyond, `CommitConsumesExactlyIff` says which reads still consume what they deliver.
- HttpStream.CompletionComesAfterTheBody: the counter is a 64-bit one and wraps, so queued lengths that sum to a non-zero multiple of 2^64 are excluded; `EveryBytePrecedesCompletionIff` shows that this is the exact condition.
- ConnectionPool.CapacityIsRespected: needs a limit of zero or more, and connect events at most once and before close; `NegativeLimitIsNoLimit` and `ConnectKeepsTheBoundIff` show what happens otherwise.
- TopicTree.LookupIsComplete: speaks of nodes without a callback too and so asks for wildcards to be only children, which `WalkIsCompleteIff` shows to be exact for nodes; for stored filters the exact conditions are those of `FilterIsReachedIff` and `StoredFiltersAreFoundIff`.
- N-API argument extraction, TLS, socket and proxy options, credentials, signing, hashing: foreign calls and field copying.
- `get_status`, `get_length` and the end of stream: status reports the flag alone and nothing else depends on it.
- Memory order of the unlocked reads in the input stream: each access is one atomic step, and a copy is one step per byte.
- The response-headers callback: its order against completion is not covered by `pending_length`.
- Calls without an environment in the HTTP stream and the logger, a failed lookup of `process` in the logger and a closing drain function: shutdown paths.
- Abort mode of releasing a threadsafe function is modelled as giving back one reference, since nothing is queued afterwards that the model promises to deliver.
- A subscription without a handler, the any-publish handler and the close and finalize functions of the MQTT binding.
- Trailing-whitespace stripping in the log writer: its bound is evaluated after the character before the buffer has been read, so an all-blank line has no defined result.
- The ring buffer itself and its fallback allocator: blocks have an order of acquiring and releasing, not addresses.
- `HttpHeaders.remove_value`: it leaves a hole in the list of values and fails on an absent name; names inherited from the JavaScript object prototype are out as well.
- Case folding outside ASCII: such characters are compared as they are.
- Closing the connection manager rejects waiting callers without dequeuing them: it is a step that leaves the pool unchanged, and second settlements of a promise are not modelled.
- Listeners that call `uncork` while it is running, listeners that throw (which leaves the head in the queue and ends the drain), and the boolean that `emit` returns.
- Topics beginning with `$` (section 4.7.2 of MQTT 3.1.1): the code has no rule for them.
- Who subscribed what when an insert falls back onto an existing wildcard node: the callback stored last wins, and soundness is stated for the node's path.
- A key splitter given as a function: the trie is modelled for a delimiter string.
- The interleaved protocols are stated on values; the classes beside them run each callback without interruption.
