# Verification of the chat platform's cores

A Dafny 4.11 model of ten files of the chat platform: the search trie with its
edit distance, the retrying message consumer, three rate limiters, the
notification heap, the CSRF token format, and the conversation, call, message
and media handlers. `dafny verify dfyconfig.toml` checks everything.

## How the model is built

Every core file has a module. What a call does to the state is a function on
values (`Step`, `Next`, `Do`, `SiftDown`, ...), and the properties are lemmas
about these functions, most of them over whole histories: every sequence of
inserts and deletes, every run of handler calls with cache entries evicted
anywhere, every request history, every interleaving of broker steps. Beside
them stands the imperative code in the form of the source, a class with the
same fields whose methods are proved to change its state exactly as the
function says, loops and recursions included.

- `EditDistance`, `StableSort`, `TrieView`, `TrieInvariants`, `TrieSearch` and
  `TrieService` model the trie. A view maps each path from the root to its
  node's contents; the node graph of `TrieService` is proved to be the tree that
  its view describes.
- `Windows` holds request histories and what the Redis algorithms admit of them;
  `RedisRateLimiter` proves that what is stored amounts to the whole history.
  `RateLimitGuard` is the in-memory limiter.
- `RetryingConsumer` splits the callback at its broker calls, so that a lost
  channel or a crash of the process can fall between any two of them. Callbacks
  outlive a lost channel, and the connection manager may send any copy again.
- `NotificationQueue` is the heap, `Csrf` the token format.
- `Conversations`, `Calls`, `Messages` and `Media` treat each handler call as
  one atomic step with one clock reading; documents sit in a sequence and their
  id is their place in it. Cache eviction is a step that can happen at any time.
  A save that violates the document schema changes nothing and is answered by an
  error.
  `ConversationRules`, `CallRules`, `MessageRules` and `MediaRules` state apart
  from the handlers what may be answered and changed, in terms of documents and
  past requests alone, and prove that the handlers do just that.
- `Sequences` and `Wrappers` hold what several modules share.

## What the proofs found

- `fuzzySearch` returns nothing at all when the query is longer than
  `maxDistance`: its prune also cuts prefixes that are too short, the root among
  them. The comment speaks of the minimum possible distance; for a whole subtree
  that is the one-sided difference, and the prune by it is proved complete.
- `delete` is documented to return true if the word was deleted; it returns true
  exactly if the trie is empty afterwards and the word was in it.
- The sliding window counts rejected requests, so the advertised `retryAfter`
  can be too short; `RetrySucceedsIff` gives the exact instant.
- The in-memory limiter admits up to 2*max - 1 requests in a closed interval of
  its window, and a retry exactly `Retry-After` seconds later can be rejected.
- The heap is first-in-first-out among equal priorities exactly while no dequeue
  finds more than two jobs.
- `getActiveCall` finds a live call whenever the query does; it is the query's
  for every content of the cache exactly if at most one live call lists the user.
- `leaveCall` never ends a call: its end reason is not one of the schema's, so the
  save fails and the departure itself is not stored either.
- Storage counters drift exactly on stored uploads without positive size, on
  deleting a deleted item again and on negative sizes. The total always is the
  sum of the five kinds.
- A republished message goes straight back to its own queue with an expiration:
  the retry "delay" delays nothing, it is the time after which the copy expires.
- A handler that succeeds after its channel was lost is treated as failed: its
  ack throws, and a retry copy is published beside the redelivered message.
- `validateToken` throws instead of returning false when the signature has the
  wrong length, and a time that is not a number never expires.

## Model

| member | source | states |
|---|---|---|
| EditDistance.LevenshteinDistance | src/common/search/trie.service.ts:262-297 | the filled table returns the length of a shortest insert/delete/substitute script, for all strings |
| EditDistance.LevIsEditDistance | src/common/search/trie.service.ts:280-296 | the recurrence that takes only the diagonal on a match is optimal over all edit scripts |
| EditDistance.EditDistanceUnique | src/common/search/trie.service.ts:262-297 | no other number is the length of a shortest script |
| EditDistance.Symmetric | src/common/search/trie.service.ts:262-297 | the distance does not depend on the order of its arguments |
| EditDistance.TriangleInequality | src/common/search/trie.service.ts:262-297 | going through a third string is never shorter |
| EditDistance.ZeroOnlyWhenEqual | src/common/search/trie.service.ts:262-297 | zero exactly on equal strings |
| EditDistance.AtLeastLengthDifference | src/common/search/trie.service.ts:242-246 | the distance is at least the length difference, which is what the prune relies on |
| TrieInvariants.InsertRefinesMap | src/common/search/trie.service.ts:29-48 | inserting keeps the tree, the frequency order and the absence of dead branches, and updates exactly one key |
| TrieInvariants.DeleteRefinesMap | src/common/search/trie.service.ts:141-148 | deleting keeps the same invariants, removes exactly one key, and answers true exactly when that key was the only one |
| TrieInvariants.DeleteFromPrunes | src/common/search/trie.service.ts:307-332 | every level of the recursion prunes what became dead, disturbs no other word, and asks its parent to drop it exactly when the word was there and nothing else hangs on the node |
| TrieInvariants.HistoryRefinesMap | src/common/search/trie.service.ts:29-156 | after every sequence of insert, delete and clear the trie is well formed and holds what a plain map holds |
| TrieInvariants.NodesArePrefixes | src/common/search/trie.service.ts:307-332 | the nodes are exactly the root and the prefixes of stored words: no branch survives its words |
| TrieInvariants.FrequencyFalls | src/common/search/trie.service.ts:37-44 | a frequency never exceeds one further up, and is strictly smaller below a stored word |
| TrieInvariants.InsertFreq | src/common/search/trie.service.ts:37-44 | an insert counts the word at its own non-empty prefixes and nowhere else |
| TrieInvariants.FrequencyCounts | src/common/search/trie.service.ts:37-44 | after every history a node's frequency is the number of inserts of words with its prefix since no stored word had it |
| TrieView.LowerIff | src/common/search/trie.service.ts:34 | the lower-cased form is the one case variant of a word without an upper-case letter |
| TrieView.LowerAlikeIff | src/common/search/trie.service.ts:34 | two words have one lower-cased form if and only if they are equal up to case |
| TrieInvariants.HistoryLowered | src/common/search/trie.service.ts:29-48 | after every history no stored word has an upper-case letter |
| TrieInvariants.CaseNeverMatters | src/common/search/trie.service.ts:29-148 | after every history an insert in any case makes all case variants of the word, and nothing else, found with its data, and a delete in any case makes them missing |
| TrieSearch.VisitOrdered | src/common/search/trie.service.ts:208-217 | the walk reports a path before what is below it and before its later siblings |
| TrieSearch.PrefixAnswer | src/common/search/trie.service.ts:80-101 | the answer is the data of the first matching words, by frequency and then in the order of the walk: as many as the limit admits, all if it admits all, a negative limit counted from the end |
| TrieSearch.FuzzyAnswer | src/common/search/trie.service.ts:112-133 | the same of the near words, by distance, frequency and walk, if the query is no longer than maxDistance, else nothing |
| TrieSearch.AnswersAll | src/common/search/trie.service.ts:97-132 | with room for all, the data of every word is in the answer |
| TrieSearch.VisitExact | src/common/search/trie.service.ts:208-217 | a depth-first walk reports every qualifying node below its start once, and none behind a prune |
| TrieSearch.PrefixSearchExact | src/common/search/trie.service.ts:80-101 | the ranking lists exactly the stored words with the prefix and truthy data, once each, by falling frequency, the prefix itself first if it is such a word |
| TrieSearch.StoredPrefixComesFirst | src/common/search/trie.service.ts:96-101 | with a limit of at least 1 the data of a prefix that is a stored word is the first result |
| TrieSearch.FuzzySound | src/common/search/trie.service.ts:112-133 | with any prune only stored words within the distance are returned, once each, nearest first, then most frequent first |
| TrieSearch.FuzzyAsWritten | src/common/search/trie.service.ts:228-252 | with the two-sided prune all near words are found if the query is no longer than maxDistance, and nothing if it is longer |
| TrieSearch.FuzzyCompleteIff | src/common/search/trie.service.ts:242-246 | nothing near is missed if and only if the query is no longer than maxDistance or nothing is near |
| TrieSearch.FuzzyMissesExactMatch | src/common/search/trie.service.ts:112-118 | with the default distance a stored word of three letters is not found by its own spelling |
| TrieSearch.FuzzyOneSidedComplete | src/common/search/trie.service.ts:242-246 | the prune the comment describes, on too long words only, loses nothing for any query |
| TrieSearch.StatsCount | src/common/search/trie.service.ts:162-179 | the counts of the walk are one plus the number of distinct non-empty prefixes, and the number of words |
| StableSort.SortCorrect | src/common/search/trie.service.ts:97-130 | the sort the results are ranked by is ordered, keeps the multiset and the order of ties |
| StableSort.SortStable | src/common/search/trie.service.ts:97-130 | what came first stays first among equals |
| StableSort.SortMap | src/common/search/trie.service.ts:97-132 | sorting the pushed records is sorting the words they were made from |
| TrieService.TrieService.Insert | src/common/search/trie.service.ts:29-48 | the node graph changes as the specification does and stays a well-formed tree of distinct nodes; the word is then stored, in lower case, with its data |
| TrieService.TrieService.Enter | src/common/search/trie.service.ts:38-44 | one round of the loop creates the child only if it is missing and counts exactly the child |
| TrieService.TrieService.FindNode | src/common/search/trie.service.ts:187-199 | returns the node reached by the lower-cased word, null exactly if there is none |
| TrieService.TrieService.Search | src/common/search/trie.service.ts:56-59 | the data of the stored word that is this one up to case, null if there is none |
| TrieService.TrieService.Contains | src/common/search/trie.service.ts:67-70 | true exactly if a stored word is this one up to case |
| TrieService.TrieService.Delete | src/common/search/trie.service.ts:141-148 | the graph changes as the specification does and no case variant of the word is left; true exactly if the trie held this word and no other |
| TrieService.TrieService.DeleteHelper | src/common/search/trie.service.ts:307-332 | unmarks, prunes on the way back and replaces no node |
| TrieService.TrieService.Clear | src/common/search/trie.service.ts:154-156 | leaves the empty trie, on fresh nodes |
| TrieService.TrieService.CollectWords | src/common/search/trie.service.ts:208-217 | appends the records of its subtree to the shared array, in walk order |
| TrieService.TrieService.SearchByPrefix | src/common/search/trie.service.ts:80-101 | returns the data of the first matching words by rank, as many as the limit admits |
| TrieService.TrieService.FuzzySearchHelper | src/common/search/trie.service.ts:228-252 | appends the near records it reaches through the two-sided prune |
| TrieService.TrieService.FuzzySearch | src/common/search/trie.service.ts:112-133 | returns the data of the first near words by nearness, as many as the limit admits, nothing for a query longer than maxDistance |
| TrieService.TrieService.CountNodes | src/common/search/trie.service.ts:166-174 | counts the nodes and words of its subtree |
| TrieService.TrieService.GetStats | src/common/search/trie.service.ts:162-179 | one node for the root and each distinct non-empty prefix, one word for each key of the map |
| RetryingConsumer.EveryRunConserves | src/common/rabbitmq/amqp-manager.service.ts:384-464 | in every run, for every message, the copies standing for it are those published, plus one for each delivery given back after its retry copy was out, each retry copy of a callback that outlived its channel, and each copy sent twice |
| RetryingConsumer.NeverLost | src/common/rabbitmq/amqp-manager.service.ts:384-464 | wherever channels are lost and processes crash, a published message is queued, being handled, completed, dead-lettered or expired |
| RetryingConsumer.ExactlyOnePlace | src/common/rabbitmq/amqp-manager.service.ts:384-464 | while the channel is kept, a message published once is in exactly one of these places |
| RetryingConsumer.LostAckDuplicates | src/common/rabbitmq/amqp-manager.service.ts:442-456 | a channel lost between publish and ack completes a message twice |
| RetryingConsumer.LateSuccessRetries | src/common/rabbitmq/amqp-manager.service.ts:402-456 | a handler that succeeds after its channel was lost still publishes a retry copy |
| RetryingConsumer.RetryNotDelayed | src/common/rabbitmq/amqp-manager.service.ts:440-454 | right after a failure the retry copy can be delivered, and can as well expire undelivered |
| RetryingConsumer.EveryRunWithinBudget | src/common/rabbitmq/amqp-manager.service.ts:434-436 | runs made and runs still possible, by abandoned callbacks too, never exceed what publishing, redelivery and resending paid for |
| RetryingConsumer.HandlerRunsBounded | src/common/rabbitmq/amqp-manager.service.ts:429-463 | in every run at most maxRetries+1 handler runs for each publication, each delivery given back and each copy sent twice; the retries of abandoned callbacks are within that |
| RetryingConsumer.AtMostMaxRetriesPlusOne | src/common/rabbitmq/amqp-manager.service.ts:429-463 | while the channel is kept, at most maxRetries+1 runs along the chain of retry copies |
| RetryingConsumer.BudgetExhausted | src/common/rabbitmq/amqp-manager.service.ts:436-463 | a handler that always fails runs exactly maxRetries+1 times and the message is then rejected |
| RetryingConsumer.RejectedOnlyWhenExhausted | src/common/rabbitmq/amqp-manager.service.ts:436-463 | in every run a rejected copy had retrying off or used up, an acknowledged failure had not and has its retry copy, and a completed one parses |
| RetryingConsumer.FailureOutcome | src/common/rabbitmq/amqp-manager.service.ts:429-463 | a failure queues the retry copy, the same message counted once more and to expire, while retrying is on and not used up, else it rejects; no other delivery is touched |
| RetryingConsumer.LateOutcome | src/common/rabbitmq/amqp-manager.service.ts:429-463 | a callback without its channel comes to the same fork but acknowledges and rejects nothing |
| RetryingConsumer.DeliveryOutcome | src/common/rabbitmq/amqp-manager.service.ts:390-402 | a delivery starts the handler exactly if the content parses |
| RetryingConsumer.CompletedWereHandled | src/common/rabbitmq/amqp-manager.service.ts:402-406 | in every run a message is completed no more often than its handler ran |
| RetryingConsumer.Consumer.Publish | src/common/rabbitmq/amqp-manager.service.ts:332-359 | one more copy is queued; every message stays accounted for and within its budget |
| RetryingConsumer.Consumer.Deliver | src/common/rabbitmq/amqp-manager.service.ts:387-402 | the copy leaves the queue and the handler starts only if the content parses; every message stays accounted for and within its budget |
| RetryingConsumer.Consumer.Succeed | src/common/rabbitmq/amqp-manager.service.ts:404-406 | acknowledges exactly this delivery; every message stays accounted for |
| RetryingConsumer.Consumer.HandleMessageError | src/common/rabbitmq/amqp-manager.service.ts:423-463 | retries with the count raised by one and an expiration, or rejects, and does not acknowledge before the copy is out; every message stays accounted for and within its budget |
| RetryingConsumer.Consumer.AckRetried | src/common/rabbitmq/amqp-manager.service.ts:456 | acknowledges the delivery whose retry copy is out; every message stays accounted for |
| RetryingConsumer.Consumer.Expire | src/common/rabbitmq/amqp-manager.service.ts:452 | only a copy with an expiration leaves the queue this way; every message stays accounted for |
| RetryingConsumer.Consumer.LoseChannel | src/common/rabbitmq/amqp-manager.service.ts:384-418 | every unacknowledged delivery goes back into the queue, and the callbacks whose handler is at work go on |
| RetryingConsumer.Consumer.FinishAbandoned | src/common/rabbitmq/amqp-manager.service.ts:402-463 | a callback without its channel publishes a retry copy if one is left, whether its handler succeeds or fails, and acknowledges nothing |
| RetryingConsumer.Consumer.CrashProcess | src/common/rabbitmq/amqp-manager.service.ts:384-418 | every unacknowledged delivery goes back into the queue and no callback survives |
| RetryingConsumer.Consumer.SendAgain | src/common/rabbitmq/amqp-manager.service.ts:441-454 | a copy whose confirmation was lost is in the queue once more; every message stays accounted for and within its budget |
| ConversationRules.GetAnswer | src/microservices/conversations-service/conversations-service.handler.ts:177-234 | in every run, under any eviction: NOT_FOUND exactly if absent or deleted, the document's view exactly if the user takes part, FORBIDDEN otherwise |
| ConversationRules.GetFills | src/microservices/conversations-service/conversations-service.handler.ts:177-234 | a successful read fills the cache with what it shows; reads change nothing else |
| ConversationRules.RefusedIff | src/microservices/conversations-service/conversations-service.handler.ts:285-883 | each handler refuses exactly what the rules of who may do what refuse, with the error they name, and then changes nothing |
| ConversationRules.AcceptedChanges | src/microservices/conversations-service/conversations-service.handler.ts:285-883 | an accepted request changes the fields of its own document as stated field by field, drops its cache entry and touches nothing else |
| ConversationRules.CreateAnswer | src/microservices/conversations-service/conversations-service.handler.ts:111-175 | creation returns the first live direct conversation of exactly the two users, fails on a type outside the schema, or stores one fresh document |
| ConversationRules.DirectAnswer | src/microservices/conversations-service/conversations-service.handler.ts:389-420 | two different users always get a direct conversation that is not deleted and of them alone |
| ConversationRules.Remembers | src/microservices/conversations-service/conversations-service.handler.ts:343-387 | in every run a document counts the messages announced since its creation and is deleted exactly if somebody who may has deleted it |
| Conversations.RunCoherent | src/microservices/conversations-service/conversations-service.handler.ts:177-387 | in every run, under any eviction, a cached entry is the view of a stored, non-deleted document |
| Conversations.CacheInvisible | src/microservices/conversations-service/conversations-service.handler.ts:177-883 | in every run every reply, NOT_FOUND and FORBIDDEN included, and every document is what it would be with no cache |
| Conversations.NewMembershipIff | src/microservices/conversations-service/conversations-service.handler.ts:111-155 | a created document has unique members and consistent admins exactly if its ids are distinct and a group has at least one |
| Conversations.StepMembership | src/microservices/conversations-service/conversations-service.handler.ts:422-733 | every handler keeps participants and admins unique, admins a subset in the admin role, and only groups with admins |
| Conversations.RunMembership | src/microservices/conversations-service/conversations-service.handler.ts:111-733 | so in every run whose creations are proper |
| Conversations.RunOnePerPair | src/microservices/conversations-service/conversations-service.handler.ts:113-130 | in every run two different users have at most one live direct conversation |
| Conversations.GetOrCreateSymmetricIdempotent | src/microservices/conversations-service/conversations-service.handler.ts:389-420 | the order of the users does not matter and asking again changes nothing |
| Conversations.DirectKeepsUsers | src/microservices/conversations-service/conversations-service.handler.ts:422-536 | no handler changes the two users of a direct conversation or undeletes it |
| Conversations.SameUntilDeleted | src/microservices/conversations-service/conversations-service.handler.ts:389-420 | along every continuation of every run the pair gets its existing conversation until that one is deleted |
| Conversations.ConversationsService.CreateConversation | src/microservices/conversations-service/conversations-service.handler.ts:111-175 | appends one document of a type of the schema or returns the existing direct one, cache untouched |
| Conversations.ConversationsService.GetConversation | src/microservices/conversations-service/conversations-service.handler.ts:177-234 | on a coherent cache answers as the documents alone do, and fills the cache on success only |
| Conversations.ConversationsService.UpdateConversation | src/microservices/conversations-service/conversations-service.handler.ts:285-341 | sets only the given fields, for admins only in groups and channels, and drops the entry |
| Conversations.ConversationsService.DeleteConversation | src/microservices/conversations-service/conversations-service.handler.ts:343-387 | marks the document deleted, for the creator only if a group, and drops the entry |
| Conversations.ConversationsService.GetOrCreateDirect | src/microservices/conversations-service/conversations-service.handler.ts:389-420 | finds or creates the conversation of the sorted pair |
| Conversations.ConversationsService.AddParticipant | src/microservices/conversations-service/conversations-service.handler.ts:422-480 | appends one non-admin member, never to a direct conversation and never twice |
| Conversations.ConversationsService.RemoveParticipant | src/microservices/conversations-service/conversations-service.handler.ts:482-536 | takes the user off participants and admins, by an admin or the user |
| Conversations.ConversationsService.LeaveConversation | src/microservices/conversations-service/conversations-service.handler.ts:538-552 | is removal by oneself, with its errors passed on |
| Conversations.ConversationsService.MakeAdmin | src/microservices/conversations-service/conversations-service.handler.ts:554-608 | promotes a participant once, by an admin |
| Conversations.ConversationsService.RemoveAdmin | src/microservices/conversations-service/conversations-service.handler.ts:610-654 | demotes, by the creator only |
| Conversations.ConversationsService.SetMuted | src/microservices/conversations-service/conversations-service.handler.ts:656-733 | changes the mute fields of the first matching participant, deleted conversations included |
| Conversations.ConversationsService.SetArchived | src/microservices/conversations-service/conversations-service.handler.ts:735-795 | changes only the archive flag |
| Conversations.ConversationsService.UpdateLastMessage | src/microservices/conversations-service/conversations-service.handler.ts:844-883 | stores the preview cut to 100 characters and counts the message, deleted conversations included |
| CallRules.Life | src/microservices/calls-service/calls-service.handler.ts:121-402 | in every run a call started when it was initiated, was answered by the request that found it ringing and listed its user, ended by the last request that ended it, for its reason, and lasted the whole seconds from the answer to its last end |
| CallRules.RefusedIff | src/microservices/calls-service/calls-service.handler.ts:121-402 | each handler refuses exactly what the rules refuse, with the error they name, and then changes no call |
| CallRules.PeopleChange | src/microservices/calls-service/calls-service.handler.ts:144-376 | which participant entries an accepted request changes, and to what |
| CallRules.AcceptedChanges | src/microservices/calls-service/calls-service.handler.ts:175-376 | what an accepted request answers and does to the cache: answering and joining cache the call, ending drops everybody it lists |
| CallRules.InitiateChanges | src/microservices/calls-service/calls-service.handler.ts:137-179 | an accepted initiation stores one fresh ringing call as described and caches it for the caller |
| CallRules.FailedLeaveDrops | src/microservices/calls-service/calls-service.handler.ts:376-395 | a departure that fails drops exactly the entries of the user and of those who remain |
| CallRules.GetActiveAnswer | src/microservices/calls-service/calls-service.handler.ts:634-660 | the cached call while it is live, else the first live call that lists the user, else null |
| Calls.StepSound | src/microservices/calls-service/calls-service.handler.ts:121-402 | every handler keeps each call sound and changes calls only forward |
| Calls.RunGood | src/microservices/calls-service/calls-service.handler.ts:121-402 | in every run: endedAt set iff terminal, end reasons and types of the schema, active implies answered, durations of ended answered calls are whole seconds, live calls keep somebody present, one live call per initiator, cache entries name calls that list their user |
| Calls.OverForEver | src/microservices/calls-service/calls-service.handler.ts:194-262 | along every continuation ended and declined are never left for a live status and nobody is taken off a call |
| Calls.StepOneLive | src/microservices/calls-service/calls-service.handler.ts:123-135 | no step gives an initiator a second live call |
| Calls.StepCacheListed | src/microservices/calls-service/calls-service.handler.ts:175-393 | whatever a step caches for a user names a call that lists the user |
| Calls.ActiveCallFound | src/microservices/calls-service/calls-service.handler.ts:634-660 | in every run, under any eviction, null exactly if no live call lists the user, else such a call, and the one the query finds whenever only one fits |
| Calls.CachedCallCanDiffer | src/microservices/calls-service/calls-service.handler.ts:637-649 | with two live calls the cached answer can differ from the query |
| Calls.CacheNeverShowsIff | src/microservices/calls-service/calls-service.handler.ts:634-660 | whatever calls of the user the cache names, the answer is the query's, if and only if at most one live call lists the user |
| Calls.LeaveStoredIff | src/microservices/calls-service/calls-service.handler.ts:359-402 | a departure is stored exactly if two others are still present; else the save fails, no call changes and the cache entries are dropped; leaving ends no call |
| Calls.RejectFailsIff | src/microservices/calls-service/calls-service.handler.ts:249-266 | a rejection fails, changing nothing, exactly if nobody rings any more and the reason given is none of the schema's |
| Calls.EndedOnlyByRequest | src/microservices/calls-service/calls-service.handler.ts:269-402 | in every run only endCall ends a call and only rejectCall declines one |
| Calls.AllLeftUnlisted | src/microservices/calls-service/schemas/call.schema.ts:102-106 | the reason leaveCall ends a call with is none the schema admits |
| Calls.WithoutPresent | src/microservices/calls-service/calls-service.handler.ts:389-392 | the loop drops exactly the entries of participants who have not left |
| Calls.CallsService.InitiateCall | src/microservices/calls-service/calls-service.handler.ts:121-184 | refuses a caller who is in a live call and types outside the schema, else stores a ringing call and caches it for the caller only |
| Calls.CallsService.AnswerCall | src/microservices/calls-service/calls-service.handler.ts:186-229 | only a ringing call and only by a listed user becomes active, answered at this instant |
| Calls.CallsService.RejectCall | src/microservices/calls-service/calls-service.handler.ts:231-267 | declines the call once no callee rings any more, for a reason of the schema; another one leaves the call as it was |
| Calls.CallsService.EndCall | src/microservices/calls-service/calls-service.handler.ts:269-303 | ends the call, marks everybody left and drops all their entries |
| Calls.CallsService.JoinCall | src/microservices/calls-service/calls-service.handler.ts:305-357 | adds or re-admits a user to a group call only |
| Calls.CallsService.LeaveCall | src/microservices/calls-service/calls-service.handler.ts:359-402 | stores the departure while others remain; with at most one left the save fails on its end reason, after the cache entries are dropped |
| Calls.CallsService.GetActiveCall | src/microservices/calls-service/calls-service.handler.ts:634-660 | answers from the cache only with a live call, else from the query |
| MessageRules.SendAnswer | src/microservices/messages-service/messages-service.handler.ts:95-130 | a type outside the schema is refused, any other message is stored as stated field by field |
| MessageRules.MarkAsReadAnswer | src/microservices/messages-service/messages-service.handler.ts:307-335 | one receipt at this instant for each named message the user had not read, and their number is the answer |
| MessageRules.MarkAsDeliveredAnswer | src/microservices/messages-service/messages-service.handler.ts:337-364 | each named message still sent and not delivered to the user is, and their number is the answer |
| MessageRules.UnreadCountIs | src/microservices/messages-service/messages-service.handler.ts:601-623 | the count is the number of messages that are not deleted, of somebody else, not read and of the conversation asked for |
| MessageRules.ReactionAnswer | src/microservices/messages-service/messages-service.handler.ts:366-430 | a reaction replaces the user's former one and leaves the others in order; removing only removes |
| MessageRules.DeleteAnswer | src/microservices/messages-service/messages-service.handler.ts:262-305 | for everyone only the sender deletes and the content goes; for oneself only the mark is set |
| MessageRules.ReceiptTells | src/microservices/messages-service/messages-service.handler.ts:95-335 | in every run a user has one receipt exactly if the user sent the message or was first marked as having read it, at that time |
| Messages.StepSound | src/microservices/messages-service/messages-service.handler.ts:95-430 | every handler keeps: read iff a non-sender has a receipt, receipts and reactions unique per user, at most two in deliveredTo |
| Messages.RunSound | src/microservices/messages-service/messages-service.handler.ts:95-430 | so in every run |
| Messages.OnlyForward | src/microservices/messages-service/messages-service.handler.ts:262-430 | along every continuation a status only rises, receipts and deliveries only grow and nothing is undeleted |
| Messages.MarkAsReadLowers | src/microservices/messages-service/messages-service.handler.ts:307-335 | marking lowers the reader's unread count by exactly the newly read, non-deleted, non-own messages, and nobody else's |
| Messages.MarkAsReadIdempotent | src/microservices/messages-service/messages-service.handler.ts:312-330 | a second marking changes nothing and reports zero |
| Messages.OtherStepsOnUnread | src/microservices/messages-service/messages-service.handler.ts:601-623 | how every other handler moves an unread count: +1 for a stored message of somebody else, -1 for deleting an unread one, 0 otherwise |
| Messages.MessagesService.SendMessage | src/microservices/messages-service/messages-service.handler.ts:95-130 | stores a sent message delivered to and read by its sender, of a type of the schema, else nothing |
| Messages.MessagesService.MarkAsRead | src/microservices/messages-service/messages-service.handler.ts:307-335 | the bulk update adds one receipt to each selected message and reports how many changed |
| Messages.MessagesService.MarkAsDelivered | src/microservices/messages-service/messages-service.handler.ts:337-364 | only messages still sent are moved, and counted |
| Messages.MessagesService.AddReaction | src/microservices/messages-service/messages-service.handler.ts:366-405 | replaces the user's reaction, missing messages reported |
| Messages.MessagesService.RemoveReaction | src/microservices/messages-service/messages-service.handler.ts:407-430 | removes the user's reaction and no other |
| Messages.MessagesService.DeleteMessage | src/microservices/messages-service/messages-service.handler.ts:262-305 | for everyone only by the sender, clearing the content |
| Messages.MessagesService.GetUnreadCount | src/microservices/messages-service/messages-service.handler.ts:601-623 | counts exactly what its query selects |
| Media.RecountTells | src/microservices/media-service/media-service.handler.ts:473-505 | a recount is, field by field, the sum of the sizes of the user's undeleted items of that kind, of all of them, and their number |
| MediaRules.CountersTell | src/microservices/media-service/media-service.handler.ts:124-513 | in every run of harmless calls the stored counters and the reports are these sums |
| MediaRules.IncrementTells | src/microservices/media-service/media-service.handler.ts:448-471 | an increment changes the total, the field of the kind and the file count, of one user only |
| MediaRules.MediaTypeIff | src/microservices/media-service/media-service.handler.ts:96-116 | the derived kind, for every MIME type |
| MediaRules.UploadAnswer | src/microservices/media-service/media-service.handler.ts:124-157 | a stored upload is one new item of the stated kind or else the derived one |
| MediaRules.DeleteAnswer | src/microservices/media-service/media-service.handler.ts:271-307 | only the owner deletes, and only the mark of the item changes |
| MediaRules.UsageAnswer | src/microservices/media-service/media-service.handler.ts:413-439 | a report shows the stored record, or a fresh recount that is then stored |
| Media.UploadStoredIff | src/microservices/media-service/schemas/media.schema.ts:16-25 | an upload is stored and counted exactly if its stated kind, if any, is one of the five and its names are not empty; else nothing changes |
| Media.StepAccurateIff | src/microservices/media-service/media-service.handler.ts:124-307 | from accurate counters a call leaves accurate counters if and only if it is harmless: an upload that is refused or positive, or no deletion of something deleted before or of negative size |
| Media.UploadAccurateIff | src/microservices/media-service/media-service.handler.ts:124-157 | an upload keeps the counters accurate exactly if it is refused or its size is positive |
| Media.DeleteAccurateIff | src/microservices/media-service/media-service.handler.ts:271-307 | a deletion keeps them accurate exactly if the item was not deleted before and has no negative size |
| Media.RunAccurate | src/microservices/media-service/media-service.handler.ts:124-513 | in every run of harmless calls all counters of all users equal a recount, and so do the reports |
| Media.CarefulAccurate | src/microservices/media-service/media-service.handler.ts:124-307 | in every run whose uploads are positive and in which nobody deletes the same item twice, all counters of all users equal a recount |
| Media.RecountDelete | src/microservices/media-service/media-service.handler.ts:287-295 | marking an item deleted takes exactly its bytes and one file out of a recount |
| Media.RunBalanced | src/microservices/media-service/media-service.handler.ts:96-157 | in every run, harmless or not, stored kinds are the five and every total is the sum of its kinds |
| Media.RecountBalanced | src/microservices/media-service/media-service.handler.ts:489-505 | a recount of items of the five kinds totals the sum of the kinds |
| Media.AggregateRecounts | src/microservices/media-service/media-service.handler.ts:473-505 | grouping by kind and adding the groups up equals adding item by item |
| Media.TallyAdds | src/microservices/media-service/media-service.handler.ts:489-492 | one turn of the loop over the groups, whose assignment is an addition because kinds are distinct |
| Media.MediaService.UploadMedia | src/microservices/media-service/media-service.handler.ts:124-166 | stores the item under the given or the derived kind and raises the counters, or is refused by the schema |
| Media.MediaService.DeleteMedia | src/microservices/media-service/media-service.handler.ts:271-307 | own media only; lowers the counters even if it was deleted before |
| Media.MediaService.UpdateStorageUsage | src/microservices/media-service/media-service.handler.ts:448-471 | an upserting increment of the total, the field of the kind and the file count by the sign of the change |
| Media.MediaService.CalculateStorageUsage | src/microservices/media-service/media-service.handler.ts:473-513 | the stored record holds the sums over the user's undeleted items, by kind and in all, and their number |
| Media.MediaService.GetStorageUsage | src/microservices/media-service/media-service.handler.ts:413-439 | reports the stored counters, or recounts if there are none |
| Windows.SlidingBound | src/common/throttler/redis-rate-limit.config.ts:90-134 | over every history, every interval (a, a + windowMs] has at most max successes |
| Windows.NoSuccessBeforeOldestLeaves | src/common/throttler/redis-rate-limit.config.ts:113-117 | after a rejection nothing succeeds before the oldest counted request is a whole window old |
| Windows.RetrySucceedsIff | src/common/throttler/redis-rate-limit.config.ts:113-126 | the exact instant from which a retry succeeds |
| Windows.RetryAfterTooShort | src/common/throttler/redis-rate-limit.config.ts:117-124 | the advertised retryAfter can end in another rejection, because rejected requests count too |
| Windows.FixedBound | src/common/throttler/redis-rate-limit.config.ts:140-173 | a half-open interval of the length of the window has at most 2*max successes |
| Windows.EdgeBurstReachesBound | src/common/throttler/redis-rate-limit.config.ts:137-145 | and the bound is reached, for every window and maximum |
| Windows.FixedRetryLandsLater | src/common/throttler/redis-rate-limit.config.ts:154-163 | waiting retryAfter seconds, rounded up twice, always ends in a later window |
| Windows.AfterCount | src/common/throttler/redis-rate-limit.config.ts:98-103 | what the window counts is the number of requests later than its start |
| Windows.InWindowCount | src/common/throttler/redis-rate-limit.config.ts:145 | what the aligned window counts is the number of requests in it |
| RedisRateLimiter.KeysExpire | src/common/throttler/redis-rate-limit.config.ts:98-105 | a check lets its key live for one window and leaves the others alone; a status query prolongs and creates nothing |
| RedisRateLimiter.CounterExpires | src/common/throttler/redis-rate-limit.config.ts:147-149 | a request lets its counter live for one more window and leaves the others alone |
| RedisRateLimiter.CheckedIsWindow | src/common/throttler/redis-rate-limit.config.ts:98-105 | after a check the set is exactly the requests of the whole history in (now - windowMs, now] |
| RedisRateLimiter.CheckedFaithful | src/common/throttler/redis-rate-limit.config.ts:98-105 | checks keep that true of every key at every later time, so the expiry is never observable |
| RedisRateLimiter.QueriedFaithful | src/common/throttler/redis-rate-limit.config.ts:192-194 | status queries keep it too, although they renew nothing |
| RedisRateLimiter.IncrementedCounts | src/common/throttler/redis-rate-limit.config.ts:145-152 | the counter is the number of requests so far in the aligned window, despite the renewed expiry |
| RedisRateLimiter.Limiter.SlidingWindowCheck | src/common/throttler/redis-rate-limit.config.ts:90-134 | succeeds exactly if at most max requests of the whole history are in the window; remaining and retryAfter follow from that history |
| RedisRateLimiter.Limiter.FixedWindowCheck | src/common/throttler/redis-rate-limit.config.ts:140-173 | the same for the aligned window |
| RedisRateLimiter.Limiter.GetStatus | src/common/throttler/redis-rate-limit.config.ts:186-205 | reports the true count of the window and records no request; without sliding-window requests it reports a full quota |
| RateLimitGuard.RequestAnswer | src/common/guards/rate-limit.guard.ts:64-99 | in every trace a request is allowed while its window, opened by the first request after the former one, has had at most max requests; the headers tell how many are left and the whole seconds that remain |
| RateLimitGuard.CleanupInvisible | src/common/guards/rate-limit.guard.ts:57-109 | cleanups interleaved anywhere change no decision and no header |
| RateLimitGuard.FewerThanTwiceMax | src/common/guards/rate-limit.guard.ts:64-99 | of the requests of one key a closed interval of length windowMs admits at most 2*max - 1 |
| RateLimitGuard.EntryOfKey | src/common/guards/rate-limit.guard.ts:64-76 | the entry of a key depends on the requests of that key only |
| RateLimitGuard.TraceBound | src/common/guards/rate-limit.guard.ts:57-109 | in every trace of requests of any keys and of cleanups, a closed interval of length windowMs lets at most 2*max - 1 requests of a key through |
| RateLimitGuard.BurstReachesBound | src/common/guards/rate-limit.guard.ts:64-99 | that bound is reached, for every window and maximum |
| RateLimitGuard.RetryOpensNewWindow | src/common/guards/rate-limit.guard.ts:57-109 | in every trace, any later request of the key, more than Retry-After seconds after a rejection, falls into a window that began after the old one ended; the first one opens it |
| RateLimitGuard.RetryOnTheSecond | src/common/guards/rate-limit.guard.ts:67-87 | exactly Retry-After seconds later it is rejected iff the rest of the window was a whole number of seconds |
| RateLimitGuard.Guard.CanActivate | src/common/guards/rate-limit.guard.ts:64-99 | starts or continues the entry of this key and answers from it |
| RateLimitGuard.Guard.Cleanup | src/common/guards/rate-limit.guard.ts:102-109 | removes exactly the expired entries, in whatever order it meets them |
| RateLimitGuard.Guard.Serve | src/common/guards/rate-limit.guard.ts:57-109 | a whole trace of requests and cleanups answers like the requests alone |
| NotificationQueue.SiftUpHeap | src/common/queue/notification-queue.service.ts:98-112 | sifting up repairs a heap with one job too good for its place |
| NotificationQueue.SiftDownHeap | src/common/queue/notification-queue.service.ts:119-144 | sifting down repairs a heap with one job too bad for its place |
| NotificationQueue.SiftUpElsewhere | src/common/queue/notification-queue.service.ts:98-112 | sifting up moves only jobs on the way to the root |
| NotificationQueue.SiftDownElsewhere | src/common/queue/notification-queue.service.ts:119-144 | sifting down moves only jobs below its start |
| NotificationQueue.EnqueueHeap | src/common/queue/notification-queue.service.ts:57-61 | enqueue keeps the heap order |
| NotificationQueue.DequeueHeap | src/common/queue/notification-queue.service.ts:74-91 | dequeue keeps the heap order and hands out a job of maximal priority |
| NotificationQueue.DrainSorts | src/common/queue/notification-queue.service.ts:74-91 | draining any heap yields a non-increasing permutation of it |
| NotificationQueue.NothingLost | src/common/queue/notification-queue.service.ts:49-91 | over every interleaving the jobs handed out and waiting are those submitted |
| NotificationQueue.NextOutranksWaiting | src/common/queue/notification-queue.service.ts:74-91 | over every interleaving the next job outranks all that wait |
| NotificationQueue.ServedInOrderIff | src/common/queue/notification-queue.service.ts:49-91 | over every interleaving, distinct jobs of one priority are served in order of arrival if and only if no dequeue ever finds more than two waiting |
| NotificationQueue.LatestServedSecond | src/common/queue/notification-queue.service.ts:84-88 | of three or more jobs of one priority the latest is served second |
| NotificationQueue.LevelSteps | src/common/queue/notification-queue.service.ts:49-91 | among jobs of one priority an enqueue appends and a dequeue moves the last job to the front |
| NotificationQueue.NotificationQueueService.Enqueue | src/common/queue/notification-queue.service.ts:49-67 | adds exactly this job, its retries set to 0, and keeps the heap |
| NotificationQueue.NotificationQueueService.Dequeue | src/common/queue/notification-queue.service.ts:74-91 | takes exactly one job of maximal priority, none iff the queue is empty |
| NotificationQueue.NotificationQueueService.BubbleUp | src/common/queue/notification-queue.service.ts:98-112 | the recursion ends and is the sift |
| NotificationQueue.NotificationQueueService.BubbleDown | src/common/queue/notification-queue.service.ts:119-144 | the recursion ends and is the sift |
| Csrf.ParsePrinted | src/common/security/csrf.guard.ts:129 | parsing a printed time in base 36 gives the time back |
| Csrf.PrintParsed | src/common/security/csrf.guard.ts:168 | printing a parsed numeral gives it back, on every numeral the printer writes |
| Csrf.ReadsParsed | src/common/security/csrf.guard.ts:168 | white space, a sign and a numeral followed by no digit read as the signed number |
| Csrf.ParsedReads | src/common/security/csrf.guard.ts:168 | and nothing else reads as a number |
| Csrf.UpperAsLower | src/common/security/csrf.guard.ts:168 | upper-case digits count as lower-case ones |
| Csrf.ByteLengthIs | src/common/security/csrf.guard.ts:163 | the compared length is one byte for each character and one more beyond each of the limits of UTF-8 |
| Csrf.JoinSplit | src/common/security/csrf.guard.ts:153 | splitting at dots loses nothing and leaves no dot in a part |
| Csrf.SplitJoin | src/common/security/csrf.guard.ts:153 | dot-free parts come back from their joined form |
| Csrf.TokenParts | src/common/security/csrf.guard.ts:128-134 | a generated token splits back into its time, its random part and the signature of both |
| Csrf.GeneratedAcceptedIff | src/common/security/csrf.guard.ts:149-178 | a generated token is accepted beside itself exactly until tokenExpiry seconds have passed, and beside no other header |
| Csrf.AcceptedIff | src/common/security/csrf.guard.ts:149-178 | among all strings: accepted exactly if both are the same data.sign(data) whose time is not too old, where a time that is no number never is |
| Csrf.ThrowsIff | src/common/security/csrf.guard.ts:161-165 | the comparison throws exactly on equal three-part tokens whose last part is not 64 bytes long |

## Left out

- Trie: characters are atomic (`insert` walks code points, `deleteHelper` code units; they agree on the Basic Multilingual Plane), lower-casing is ASCII, limits are integers, and stored data is known by an identity and its truthiness.
- Redis: window lengths of zero, options that change between calls for one key, equal members from `Math.random`, failed transactions, `reset`, `block`, `unblock` and the headers built from a result.
- In-memory limiter: building the key from a request, routes without options, and the timer that calls `cleanup`.
- Consumer: `noAck`, a missing or rejecting publish channel, the order of the queue, broker limits, time, and message contents beyond whether they parse. Sending a copy again is possible at any time, more often than the connection manager does it.
- Notification worker: its pool, simulated delivery and retries, which restart at 0 by a new `enqueue`.
- Handlers: interleavings inside one handler call (each is one atomic step), thrown errors other than saves that violate the schema, malformed ids, timestamps kept by the database, and the lists and histories that only read.
- Conversations: how the database library copies the nested settings, the `user_convs:` cache, which is only ever deleted by the modelled handlers, typing notices, `getParticipants` and unread counts; `lastReadAt` and `lastReadMessageId` are never set by the modelled handlers.
- Calls: muting, video and screen sharing, signalling, and the ICE servers of a call.
- Messages: the schema of attachments, the `message:` cache, editing, forwarding, pinning, starring, searching and expiry; per-user deletion, which the code does not implement either.
- Media: thumbnails, processing, upload addresses, the quota of a report, and a failing counter update, whose error the code swallows.
- CSRF: cookies, headers, skipped routes and excluded paths, the HMAC itself (a function with 64 hexadecimal digits as its result), a `tokenExpiry` that is not a number, and rounding of numerals above 2^53.
