# A verified model of the music bot's stateful core

This project models, in Dafny, the logic of the bot that has state worth arguing about: the bounded
cache with expiry, the single-flight download manager, the playback engine with its rotation over
assistants, the per-chat queues and the views the queue browser shows of them, the recommendation
history, the status-message protocol, and the small parsers around them.  `dafny verify dfyconfig.toml`
checks everything.

| file | what it covers |
|---|---|
| `LruModel.dfy`, `LruCache.dfy` | the LRU + TTL cache: entry lists and whole traces; the hash map into a doubly linked ring |
| `DownloadRetry.dfy`, `SingleFlight.dfy` | one download with retries; any number of concurrent callers |
| `Assistants.dfy`, `RotationModel.dfy` | the write-through assignment store; the record of one `PlayMedia` |
| `PlaybackModel.dfy`, `VoiceCalls.dfy`, `Handlers.dfy` | what a session plays; the methods that do it; the handlers that start it or edit a queue |
| `QueueModel.dfy`, `ChatCache.dfy` | queue operations on values; slices over shared arrays, per chat |
| `QueueView.dfy` | sorting, filtering, paging and the detail buttons of the queue browser |
| `Recommend.dfy` | suggestion history and selection |
| `StatusProtocol.dfy` | the animated status message |
| `ParseResults.dfy`, `Durations.dfy` | search responses; duration texts |

How the model relates to the code:

- Code that changes objects in place is a class or a method with a loop, and its contract ties the
  new state to a function of the old one (`LruModel.Step`, `QueueModel.After`, `Assistants.Step`,
  `PlaybackModel.PlayNextDoes`, ...).  What those functions mean over whole runs is proved beside them.
- Concurrency is an explicit transition system: a step is one participant passing one program point,
  and a run is any interleaving.
- The outside world is an argument, and contracts say what becomes of it: clock readings, random
  picks, whether each message is sent, what each download and each call attempt comes to, whether a
  cached entry is lost.  Only the luck in choosing an assistant and the success of store calls inside
  a `PlayMedia`, and how ending a call turns out, are arbitrary values there, reported by the method or
  its record.  A failed store call has no effect.  Time is an integer; integers are unbounded.
- What a specification function means is stated beside it in terms that do not use it: positions,
  order and membership for queues and views, the last deciding operation for caches and assignments,
  raw outcomes for attempts, written-out texts for keys, badges and times.
- Outside its own module a cache is a map that may lose entries at any time.
  `LruModel.StepIsLossOrSet` is what justifies that.
- Go's `container/list` is a ring through a sentinel node, `sort.SliceStable` is its contract (which
  `QueueView.StableSortUnique` shows to have one solution), and case folding is a parameter.

## What the proofs found

- `renderAndEdit` stores the page clamped to the raw queue but shows the page clamped to the filtered
  view.  A shown detail button works exactly when the stored page exists in the view
  (`QueueView.ShownButtonWorks`); `QueueView.StalePageWitness` is a queue on which it does not.
- The comment on `Stop` in src/core/status/status.go:150 promises that the animation is cancelled;
  the channel close races with a due tick.  In every reachable state a frame can still follow exactly
  if `StatusProtocol.CanFrame` holds - one is on its way, or nothing is resolved or about to be and
  the loop still has edits left (`StatusProtocol.FrameFollows`) - and a call of `Stop` makes no difference to that
  (`StatusProtocol.StopKeepsFrames`); marking the message resolved ends it.
- An `EditText` whose edit Telegram rejects leaves the last accepted frame on the message: a text is
  shown exactly if some text was accepted (`StatusProtocol.MessageShowsText`).
- `getClientIndex` neither uses nor replaces a stored index that is out of range; what it returns is
  the stored index exactly if the chat had none or a valid one (`Assistants.ReturnedIsStored`).
- `handleNoSong` reads the playing track after `PlayNext` has removed it, so in a sequential run the
  recommendation hook never fires (`VoiceCalls.TelegramCalls.PlayNext`).
- A failed attempt clears the queue even if a later assistant plays (`VoiceCalls.TelegramCalls.PlayMedia`),
  and a jump replays the current track while it has loops left (`PlaybackModel.JumpTarget`).
- A failed history read counts as an empty history.  A successful update keeps the old history exactly
  if its own read sees it or the new keys happen to begin with it; otherwise the new keys are all that
  is left (`Recommend.HistoryKept`).
- From one day on `SecToMin` prints a form neither parser reads back (`Durations.SecToMinRoundTrip`).

## Model

| member | source | states |
|---|---|---|
| LruModel.StepWellFormed | src/core/cache/cache.go:72-178 | every operation keeps the keys distinct and a bounded cache within its capacity |
| LruModel.RunWellFormed | src/core/cache/cache.go:35-41 | so does every trace, from the empty cache |
| LruModel.StepIncluded | src/core/cache/cache.go:72-178 | one operation at the same time keeps a smaller cache's entries a subsequence of a larger one's and the size gap within the capacity gap |
| LruModel.Inclusion | src/core/cache/cache.go:98-119 | on any trace of gets, sets, deletes, clears and sweeps a cache of capacity m holds a subsequence of what one of capacity n >= m (or unbounded) holds: same values, expirations and recency order |
| LruModel.HitInclusion | src/core/cache/cache.go:72-91 | every hit in the smaller cache is the same hit in the larger one |
| LruModel.UnboundedIsMap | src/core/cache/cache.go:43-48 | with a nondecreasing clock an unbounded cache answers like a reference map that never forgets expired entries but does not answer them |
| LruModel.BoundedHitIsMap | src/core/cache/cache.go:50-57 | a hit in a bounded cache is what the plain map with expiry would answer |
| LruModel.LookupAnswers | src/core/cache/cache.go:72-119 | with a nondecreasing clock a get from an unbounded cache answers v exactly if an earlier set of that key stored v, no set, delete or clear came between, and the clock is not past the set's time plus its time to live |
| LruModel.BoundedLookupAnswers | src/core/cache/cache.go:72-119 | a bounded cache answers nothing else |
| LruModel.EnoughRoom | src/core/cache/cache.go:113-115 | a cache with room for every key ever stored goes through exactly the states of an unbounded one: nothing is evicted early |
| LruModel.UnboundedAlike | src/core/cache/cache.go:113-115 | every capacity that is not positive means unbounded |
| LruModel.SweepsInvisible | src/core/cache/cache.go:165-178 | sweeps inserted anywhere in a run, with a clock reading not later than the current time, change no answer of an unbounded cache |
| LruModel.RecencyOrder | src/core/cache/cache.go:36-38 | at every point the list is in strictly descending order of the last operation that stored or hit the key |
| LruModel.EvictsLeastRecent | src/core/cache/cache.go:98-119 | a new key in a full cache drops exactly one entry, the one touched longest ago |
| LruModel.StepIsLossOrSet | src/core/cache/cache.go:72-178 | after any operation a key's entry is what it was, or gone, or what that operation just stored |
| LruModel.KeptExactly | src/core/cache/cache.go:72-178 | exactly which entry each operation loses: an expired one that is looked up or swept, a deleted one, all on a clear, and the last one when a new key is stored in a full cache |
| LruModel.SweepKeeps | src/core/cache/cache.go:165-178 | an entry is there after a sweep exactly if it was before and the clock reading is not past its expiration |
| LruCache.Cache.RemoveElement | src/core/cache/cache.go:150-154 | on a well-formed ring and map, unlinks one node and its key and leaves the rest in order |
| LruCache.Cache.EvictOldest | src/core/cache/cache.go:156-162 | drops the entry at the back |
| LruCache.Cache.Get | src/core/cache/cache.go:72-91 | answers and changes the list as the abstract step says; the ring stays well formed and the map points at exactly its nodes |
| LruCache.Cache.SetWithTTL | src/core/cache/cache.go:98-119 | likewise: overwrite in place, or evict when full and push in front |
| LruCache.Cache.Set | src/core/cache/cache.go:93-96 | the same with the default time to live |
| LruCache.Cache.Delete | src/core/cache/cache.go:121-128 | likewise |
| LruCache.Cache.Clear | src/core/cache/cache.go:130-136 | leaves an empty, well-formed ring |
| LruCache.Cache.Size | src/core/cache/cache.go:138-143 | the number of entries, expired ones included |
| LruCache.Cache.EvictExpired | src/core/cache/cache.go:164-178 | the backward walk that unlinks as it goes removes exactly the entries expired at its own clock reading and keeps the order of the rest |
| DownloadRetry.DownloadWithRetry | src/core/dl/manager.go:157-191 | one to three attempts; every attempt but the last asked for another; the result is decided by the last; total pause, and exactly the rejected local files removed |
| DownloadRetry.RejectedFiles | src/core/dl/manager.go:163-167 | the files removed are those of the attempts that failed validation, unless they are http or https URLs |
| SingleFlight.StepInv | src/core/dl/manager.go:74-134 | every step of every caller keeps the invariant on calls, callers, the in-flight map and the permits |
| SingleFlight.ReachableInv | src/core/dl/manager.go:74-134 | the invariant holds in every reachable state, for any number of callers |
| SingleFlight.OneLeader | src/core/dl/manager.go:76-96 | two callers never lead a call for one key at once |
| SingleFlight.JoinerSharesOutcome | src/core/dl/manager.go:78-82 | a joiner that returned got exactly its leader's path or error |
| SingleFlight.LastAttemptDecides | src/core/dl/manager.go:125-133 | over runs: after a caller's last attempt, whenever it and those who joined its call return, they return the fetched path, the permanent error as it is, or the retryable one as the last of three |
| SingleFlight.ThreeAttempts | src/core/dl/manager.go:161-191 | no caller makes more than three attempts, and one that gives up on a retryable error has made exactly three |
| SingleFlight.HitAnswersCached | src/core/dl/manager.go:112-121 | a caller that takes the cached path at either check returns that path, and so does everyone who joined its call |
| SingleFlight.AnswerHasCause | src/core/dl/manager.go:109-134 | nobody returns without one of these: a caller hit the cache, or led a call and hit it at the re-check or attempted a download, or joined a leader of whom that holds |
| SingleFlight.RecordIsFinal | src/core/dl/manager.go:88-95 | a closed call record never changes again |
| SingleFlight.BoundedDownloads | src/core/dl/manager.go:53-55 | permits in use are exactly the callers between taking and releasing one, and at most four |
| SingleFlight.DownloadOnce | src/core/dl/manager.go:109-134 | in every interleaving, between a successful download of a key and any later attempt to download it the path was cached and then its entry was lost or found invalid by a leader's re-check |
| SingleFlight.Progress | src/core/dl/manager.go:76-95 | while a caller has not returned, some unfinished caller can step |
| SingleFlight.MeasureDrops | src/core/dl/manager.go:109-191 | every step, cache losses included, lowers a bounded measure |
| SingleFlight.AllReturn | src/core/dl/manager.go:109-134 | runs are bounded by the number of callers, and a run in which no caller can go on, whatever is still cached, has every caller returned |
| StatusProtocol.StepInv | src/core/status/status.go:116-221 | every step keeps the invariant on mutex, flags, counters and the edits sent |
| StatusProtocol.ResolutionIsLast | src/core/status/status.go:110-142 | the edits sent are frames 1, 2, 3, ..., at most MaxEdits of them, and then only resolution texts |
| StatusProtocol.NoFrameAfterText | src/core/status/status.go:164-215 | once a text was sent, everything sent later is a text |
| StatusProtocol.ClosedOnce | src/core/status/status.go:150-162 | the done channel is closed at most once, and is closed exactly from the first stop on: a call of Stop, an EditText's or the animation's own |
| StatusProtocol.LoggedAsSent | src/core/status/status.go:114-221 | along a run each send adds the next frame in turn or the EditText's own text, with whether it was accepted, and nothing else adds anything |
| StatusProtocol.TextRemains | src/core/status/status.go:114-128 | once an EditText has sent its text and returned, accepted or not, the last edit sent is a resolution text |
| StatusProtocol.MessageShowsText | src/core/status/status.go:127-133 | the edits accepted are frames in increasing order and then texts; the last one is a text exactly if some text was accepted |
| StatusProtocol.FrameFollows | src/core/status/status.go:170-221 | in every state that keeps the invariant, some continuation sends a frame exactly if CanFrame holds |
| StatusProtocol.StopKeepsFrames | src/core/status/status.go:150-162 | in every reachable state, a frame can follow a call of Stop exactly if CanFrame held before it; after EditText has marked the message none can |
| StatusProtocol.FrameAfterStop | src/core/status/status.go:150-154 | an interleaving that sends the first frame after a Stop |
| Assistants.RunCoherent | src/core/db/assistant.go:22-114 | over any operations, failing ones and cache losses included, a cached index equals the stored one |
| Assistants.ReadIsStored | src/core/db/assistant.go:22-43 | a read that does not fail answers the stored index, or -1 |
| Assistants.AssignmentHistory | src/core/db/assistant.go:45-114 | from an empty store and over any operations a chat is stored with index i exactly if some effective assignment set it, or the first effective proposal while the chat had none made it, and no assignment, removal or clearing took effect since |
| Assistants.ReadOnce | src/core/db/assistant.go:22-56 | once an index was read or set, reads answer it without the store until the cached entry is lost, removed or cleared |
| Assistants.Sticky | src/vc/calls.go:42-80 | after index i was recorded, nothing short of removing, clearing or changing it makes getClientIndex return another, as long as it can read |
| Assistants.ReturnedIsStored | src/vc/calls.go:42-80 | with working store calls the returned index is the one now stored exactly if the chat had no assignment or one in range |
| Assistants.ChosenIndex | src/vc/calls.go:42-80 | the index is the stored one if that can be read and names an assistant, else the random pick, else 0; it always names one |
| Assistants.ProposedIndex | src/vc/calls.go:55-79 | the index returned is proposed to the store exactly if the chat is a real one, nothing usable was read, and the index is a random pick or the chat has none |
| Assistants.Database.CoherentNow | src/core/db/assistant.go:22-114 | at any time the object's cached indices are the stored ones |
| Assistants.Database.GetAssistant | src/core/db/assistant.go:20-43 | cache first, then the store, filling the cache |
| Assistants.Database.SetAssistant | src/core/db/assistant.go:45-56 | store and cache both change, or neither |
| Assistants.Database.RemoveAssistant | src/core/db/assistant.go:58-68 | store and cache both lose the chat's entry, or neither |
| Assistants.Database.AssignAssistant | src/core/db/assistant.go:70-99 | takes effect only for a chat without an assignment; otherwise answers the existing one |
| Assistants.Database.ClearAllAssistants | src/core/db/assistant.go:101-114 | empties store and cache and counts the documents |
| Assistants.Database.GetClientIndex | src/vc/calls.go:42-80 | the index chosen and exactly the store operations made on the way |
| RotationModel.AtMostTwoAttempts | src/vc/play.go:57-93 | no assistant is tried more than twice in one PlayMedia |
| RotationModel.RecordInOutcomes | src/vc/play.go:57-169 | attempt by attempt: a second one follows exactly a first retry-once error; every turn but the last ends in a rotate error; a success is the very last attempt, and exactly then the verdict is that this assistant played and the last store call assigns it |
| RotationModel.OnlyLastSucceeds | src/vc/play.go:57-169 | of all attempts only the last can succeed, and there are at most two per turn |
| RotationModel.ExhaustedMeansAll | src/vc/play.go:130-135 | "after trying all assistants": each had exactly one turn, ending in a rotate error, and the store saw one removal per assistant and nothing else |
| RotationModel.RotationsOnlyRemove | src/vc/play.go:95-101 | giving up on assistants only removes the chat's assignment, once for each |
| RotationModel.OnlySuccessIsRecorded | src/vc/play.go:130-143 | an assignment is written only for the assistant that played, as the last store call |
| RotationModel.SuccessIsRecorded | src/vc/play.go:63-67 | a success is always written |
| RotationModel.PlayedIsSticky | src/vc/play.go:63-67 | after a PlayMedia that played through i and whose write succeeded, getClientIndex keeps returning i until it is removed, cleared or changed |
| VoiceCalls.TelegramCalls.GetGroupAssistant | src/vc/calls.go:82-97 | an assistant that exists under the chosen index, or none |
| VoiceCalls.TelegramCalls.PlayOnce | src/vc/play.go:103-127 | a private chat is refused before anything is tried; otherwise the attempt comes to what it is given to come to, and any failure empties the queue |
| VoiceCalls.TelegramCalls.NextUntried | src/vc/play.go:171-181 | an untried assistant, or none exactly when all were tried |
| VoiceCalls.TelegramCalls.PlayMedia | src/vc/play.go:55-93 | given what each call attempt comes to: the attempts made are the first of those, two per assistant are always enough; turns on different assistants starting with the chat's own, another only after a rotate error; the answer is decided by the last; "all tried" only if every assistant was; the store calls are exactly those the turns lead to; the queue is emptied exactly if some attempt in a group failed |
| VoiceCalls.TelegramCalls.RotateAndPlay | src/vc/play.go:129-169 | the rotation ends, and adds the remaining turns to that record |
| VoiceCalls.TelegramCalls.Stop | src/vc/calls.go:158-174 | empties the queue unless no assistant is available; an error ending the call is reported unless there was no call |
| VoiceCalls.TelegramCalls.HandleNoSong | src/vc/helpers.go:68-78 | recommendations are asked for exactly if the queue still held a track |
| VoiceCalls.TelegramCalls.Prepare | src/vc/helpers.go:26-40 | downloads only a track without a file; the file is then exactly the downloaded path; an error leaves it without one; an empty path is no error |
| VoiceCalls.TelegramCalls.PlayNext | src/vc/helpers.go:42-60 | given what the world answers for each attempt at a track: the call ends and moves the queue exactly as PlayNextDoes says; each attempt is lost to its send exactly if that fails, to its download exactly if it was sent, had no file and that fails, and else goes to PlayMedia with its old file or exactly the downloaded one; the queue it leaves is again one it can be called on; recommendations are never asked for |
| VoiceCalls.TelegramCalls.PlaySong | src/vc/calls.go:99-134 | the same, for an attempt at the track in front |
| PlaybackModel.AdvanceSchedule | src/vc/helpers.go:44-60 | picking a track takes exactly the first one off the schedule and lowers the loop-count measure by one |
| PlaybackModel.ScheduledTimes | src/vc/helpers.go:44-60 | the current track is scheduled as often as its loop counter says and a waiting one once more than that, before everything behind it |
| PlaybackModel.CallFollowsSchedule | src/vc/helpers.go:42-60 | one call attempts the next tracks of the schedule in order and leaves the rest, or nothing if a failure cleared the queue; the measure drops |
| PlaybackModel.OnlyLastPlays | src/vc/calls.go:109-119 | only a failed download goes on to another track, so a call plays at most one |
| PlaybackModel.CallLeavesSuffix | src/vc/helpers.go:53-59 | a call never reorders or adds tracks: what it leaves is the end of the queue it found |
| PlaybackModel.SessionGrows | src/vc/helpers.go:42-60 | one more call at the end of a session is a session |
| PlaybackModel.SessionFollowsSchedule | src/vc/helpers.go:42-60 | so does any sequence of calls |
| PlaybackModel.SessionEnds | src/vc/helpers.go:58-60 | as many calls as loops plus tracks always empty the queue |
| PlaybackModel.PlayTrace | src/vc/helpers.go:44-60 | run to the end without a cleared queue, a session attempts t0 l0 times and every later ti 1 + li times, in order, and plays exactly that if every attempt plays |
| PlaybackModel.PlaylistSchedule | src/handlers/play.go:394-401 | the first track's loop count 1 makes the schedule the playlist itself |
| PlaybackModel.PlaylistAttempted | src/handlers/play.go:394-401 | a playlist started on an empty chat and never cleared attempts every track once, in order, and ends with an empty queue |
| PlaybackModel.PlaylistPlaysOnce | src/handlers/play.go:394-401 | if every attempt plays, each track plays once, in order |
| PlaybackModel.AppendSchedule | src/handlers/play.go:391-392 | behind a playing queue a playlist adds each of its tracks once at the end |
| PlaybackModel.JumpTarget | internal/queue/callbacks.go:566-588 | a jump to n picks track n exactly if the current track has no loops left, else replays the current one and takes one off its counter |
| Handlers.HandleMultipleTracks | src/handlers/play.go:359-451 | queues one new track per entry within the duration limit, in order, and starts playback, as PlayNext does, exactly if nothing was queued before |
| Handlers.WithinLimitKeeps | src/handlers/play.go:372-385 | the entries kept are exactly those that last no longer than the limit, once each, in order |
| Handlers.Jump | internal/queue/callbacks.go:566-588 | rejects indices outside "up next"; otherwise trims the queue and advances it as PlayNext does |
| Handlers.PlaySession | src/vc/calls.go:297-307 | sequential calls of PlayNext are a session in the sense of SessionDoes, and the events of each are what its answers from the world make of its attempts |
| Handlers.PlayPlaylist | src/handlers/play.go:359-451 | a playlist handled on an empty chat and followed by enough calls of PlayNext: unless a failure cleared the queue, every new track is attempted once, in order, and the queue ends empty; if all messages are sent, all downloads succeed, every first call attempt does and the assistants are numbered from 0, every track plays once, in order |
| Handlers.MoveUp | internal/queue/callbacks.go:502-515 | moves a track one position up exactly if it is allowed and not already first in "up next"; otherwise nothing changes |
| Handlers.MoveDown | internal/queue/callbacks.go:531-549 | moves a track one position down exactly if it is allowed and not last |
| Handlers.RemoveAt | internal/queue/callbacks.go:473-497 | removes a track exactly if it is allowed and in "up next", never the playing one; the tracks after it move up by one |
| Handlers.UpIsDown | internal/queue/callbacks.go:502-549 | up on n and down on n - 1 are the same swap of neighbours, and each undoes the other |
| QueueModel.MoveAt | src/core/cache/chat_cache.go:279-301 | delete-then-insert shifts the tracks between the two positions by one and nothing else |
| QueueModel.RemovePositions | src/core/cache/chat_cache.go:115-119 | the tracks before a removed one stay and those after it move up by one |
| QueueModel.MovePositions | src/core/cache/chat_cache.go:289-299 | the moved track stands at its new position and the others keep their order |
| QueueModel.EndPositions | src/core/cache/chat_cache.go:47-143 | adding appends, dropping the playing track moves the rest up, clearing leaves nothing |
| QueueModel.UpNextPositions | src/core/cache/chat_cache.go:263-327 | reversing mirrors "up next", and trimming before n puts track n right behind the playing one and keeps all after it |
| QueueModel.ShuffleOrders | src/core/cache/chat_cache.go:247-261 | some picks bring "up next" into a given order exactly if that is a permutation of it |
| QueueModel.MoveUndone | src/core/cache/chat_cache.go:279-301 | swapping the arguments undoes a move, refused ones included; the playing track stays |
| QueueModel.ReverseUndone | src/core/cache/chat_cache.go:263-277 | reversing twice changes nothing |
| QueueModel.RearrangesUpNext | src/core/cache/chat_cache.go:247-301 | shuffle, reverse and move keep the playing track in front and the multiset of tracks |
| QueueModel.TrimThenAdvance | src/core/cache/chat_cache.go:303-327 | trimming before n and dropping the current track leaves the old queue from n on |
| QueueModel.Conserves | src/core/cache/chat_cache.go:47-143 | no operation invents or loses a track |
| QueueModel.OneChat | src/core/cache/chat_cache.go:37-44 | an operation changes its own chat's queue and no other |
| QueueModel.RunConserves | src/core/cache/chat_cache.go:37-327 | over any run on any chats, every track added to a chat is queued there or was dropped there, as often as it was added |
| ChatCache.ChatData.MoveTrack | src/core/cache/chat_cache.go:282-301 | the two overlapping copies do delete-then-insert; refused exactly for equal, zero or out-of-range positions |
| ChatCache.ChatData.ReverseUpNext | src/core/cache/chat_cache.go:265-277 | the two-index swap loop reverses "up next" |
| ChatCache.ChatData.ShuffleUpNext | src/core/cache/chat_cache.go:249-261 | the swaps for the given picks, on "up next" only |
| ChatCache.ChatData.TrimBefore | src/core/cache/chat_cache.go:307-327 | keeps the head and the tracks from the position on, in a new array |
| ChatCache.ChatCacher.AddSongs | src/core/cache/chat_cache.go:56-64 | appends in place or into a larger array; answers the new length; other chats keep their queues although arrays are written |
| ChatCache.ChatCacher.AddSong | src/core/cache/chat_cache.go:46-54 | the same for one track |
| ChatCache.ChatCacher.GetPlayingTrack | src/core/cache/chat_cache.go:66-76 | the first track or null |
| ChatCache.ChatCacher.GetUpcomingTrack | src/core/cache/chat_cache.go:78-88 | the second track or null |
| ChatCache.ChatCacher.GetQueueLength | src/core/cache/chat_cache.go:145-155 | the queue's length, 0 for an unknown chat |
| ChatCache.ChatCacher.RemoveCurrentSong | src/core/cache/chat_cache.go:90-104 | drops and returns the first track; other chats unchanged |
| ChatCache.ChatCacher.RemoveTrack | src/core/cache/chat_cache.go:106-121 | deletes one position and moves those after it up by one; succeeds exactly for a valid index; other chats unchanged |
| ChatCache.ChatCacher.ClearChat | src/core/cache/chat_cache.go:132-143 | empties the chat; other chats unchanged |
| ChatCache.ChatCacher.ShuffleQueue | src/core/cache/chat_cache.go:247-261 | shuffles this chat's "up next"; other chats unchanged |
| ChatCache.ChatCacher.ReverseQueue | src/core/cache/chat_cache.go:263-277 | reverses it; other chats unchanged |
| ChatCache.ChatCacher.MoveTrack | src/core/cache/chat_cache.go:279-301 | moves a track; answers whether it was allowed; other chats unchanged |
| ChatCache.ChatCacher.TrimQueueBefore | src/core/cache/chat_cache.go:303-327 | trims "up next"; other chats unchanged |
| ChatCache.ChatCacher.GetLoopCount | src/core/cache/chat_cache.go:157-167 | the playing track's loop count, or 0 |
| ChatCache.ChatCacher.SetLoopCount | src/core/cache/chat_cache.go:169-181 | sets it on that track alone; false exactly for an empty queue |
| QueueView.BeforeIsWeakOrder | internal/queue/sorting.go:42-64 | every sort key compares by a strict weak order |
| QueueView.FirstDifference | internal/queue/sorting.go:42-64 | strings are compared by the first character in which they differ, a prefix being less |
| QueueView.StableSortCorrect | internal/queue/sorting.go:42-64 | the sorted tail is a permutation, ordered, and keeps ties in their order |
| QueueView.StableSortUnique | internal/queue/sorting.go:42-64 | any ordered list that has the same members and keeps ties in order is that list |
| QueueView.ApplySort | internal/queue/sorting.go:29-70 | the copied tail sorted or reversed behind the playing track |
| QueueView.SortRearranges | internal/queue/sorting.go:29-31 | index 0 stays, and the rest is a permutation |
| QueueView.SortOrders | internal/queue/sorting.go:41-66 | by key: ascending duration, ascending folded name, requester or platform, newest first, or the queue as it is |
| QueueView.SortKeepsTies | internal/queue/sorting.go:41-64 | tracks with the same duration, folded name, requester or platform stay in the order of the queue |
| QueueView.ApplyFilter | internal/queue/filters.go:27-44 | the playing track and the matching rest, in order |
| QueueView.FilterKeeps | internal/queue/filters.go:46-61 | by key: exactly the YouTube, Spotify or Telegram tracks, the videos, the others, or everything, in order behind the playing track |
| QueueView.SortFilterCommute | internal/queue/filters.go:31-61 | filtering and sorting in either order give the same view, for every queue and all keys |
| QueueView.ClampInRange | internal/queue/pagination.go:27-41 | the page is in range, unchanged exactly if it was, else the nearer end, and 1 for an empty queue; clamping twice is clamping once |
| QueueView.PageEntry | internal/queue/pagination.go:43-65 | the i-th entry of a page is the view at that page's offset plus i |
| QueueView.OnPage | internal/queue/pagination.go:43-60 | every "up next" entry of the view is on a page |
| QueueView.PagesAreFull | internal/queue/pagination.go:17-60 | every page but the last has ten entries, and the last has the rest |
| QueueView.PagesCover | internal/queue/pagination.go:13-60 | pages 1 to PageCount, end to end, are exactly the view's tail |
| QueueView.FindRaw | internal/queue/callbacks.go:446-454 | the first raw index holding the same track object, or -1 |
| QueueView.ButtonTargets | internal/queue/callbacks.go:428-458 | a detail button resolves to the raw index of the track it stands for, never 0 |
| QueueView.ButtonsDiffer | internal/queue/callbacks.go:428-458 | different buttons on any pages resolve to different raw indices |
| QueueView.ButtonsCover | internal/queue/callbacks.go:428-458 | every matching queued track has a button |
| QueueView.ShownButtonWorks | internal/queue/callbacks.go:223-256 | a button shown by the viewer resolves exactly if the stored page exists in the filtered view |
| QueueView.StalePageWitness | internal/queue/callbacks.go:223-256 | how a page goes stale: stored as page 2 of a filtered view, which then loses a track and has one page, while the raw queue still has two; ten buttons are shown and none resolves |
| Recommend.Selected | src/handlers/recommend.go:65-78 | the selection is distinct, unknown, from the candidates, at most n, and shorter only if nothing is left |
| Recommend.KeysDiffer | src/handlers/recommend.go:40-42 | two tracks have the same key exactly if platform and id are the same, platform names having no colon |
| Recommend.SelectInOrder | src/handlers/recommend.go:65-78 | candidates are taken in order: whatever comes before the first one with a selected key is known or was selected earlier |
| Recommend.SelectPrefix | src/handlers/recommend.go:75-77 | a smaller limit selects a prefix |
| Recommend.SelectFresh | src/handlers/recommend.go:59-78 | the loop with its early exit makes that selection, of at most five and fewer only if every other candidate is known |
| Recommend.MergeKeys | src/core/db/recommendations.go:57-70 | appends the keys that are neither empty nor known nor repeated |
| Recommend.MergeAdds | src/core/db/recommendations.go:57-70 | merging keeps the history in front and adds, once each, exactly the new keys that are not empty |
| Recommend.MergeInOrder | src/core/db/recommendations.go:57-70 | in the order in which they are given |
| Recommend.Database.GetRecommendHistory | src/core/db/recommendations.go:29-47 | cache first, then the store; a failed read answers no history |
| Recommend.Database.AddRecommendedTracks | src/core/db/recommendations.go:49-89 | merges, keeps the last hundred, and writes store and cache together or not at all |
| Recommend.Database.TriggerRecommendations | src/handlers/recommend.go:49-103 | one suggestion: what is shown and what is remembered |
| Recommend.RecommendationWindow | src/core/db/recommendations.go:52-89 | over every run whose suggestions all see the history they select by and update, and write it - as they do when store calls succeed - the stored history is the last hundred suggestions and any 101 consecutive suggestions to a chat are pairwise different, whatever the cache loses |
| Recommend.HistoryKept | src/core/db/recommendations.go:37-70 | after a successful write the history is the old one merged with the new keys exactly if the update saw it or the keys begin with it, and else the new keys alone; keys selected knowing the history avoid it |
| Recommend.HistoryShrinks | src/core/db/recommendations.go:37-70 | a history longer than one batch shrinks exactly if the update did not see it |
| ParseResults.DigPath | src/core/dl/youtube_search.go:498-520 | the value at the end of a path; null as soon as the path leaves the tree |
| ParseResults.IsLiveNow | src/core/dl/youtube_search.go:192-208 | whether some badge carries the live style |
| ParseResults.Results.AddVideo | src/core/dl/youtube_search.go:164-184 | adds a video exactly if it is not live and has id, title and length |
| ParseResults.Results.ParseResults | src/core/dl/youtube_search.go:148-190 | the recursive cut-off traversal appends exactly the first tracks of the whole tree's playable videos, up to the limit |
| ParseResults.SearchResults | src/core/dl/youtube_search.go:134-146 | a search with limit L yields exactly the first L tracks of the same traversal without a limit |
| ParseResults.OnlyPlayable | src/core/dl/youtube_search.go:164-172 | the results are exactly the tracks of the playable videos |
| ParseResults.RendererReads | src/core/dl/youtube_search.go:164-184 | a renderer with given parts, and any further fields, is taken exactly if no badge is the live one and id, title and length are there, and its track has each part in its place |
| ParseResults.TraversalOrder | src/core/dl/youtube_search.go:153-189 | arrays are traversed element by element and objects field by field, in order |
| ParseResults.SearchReadsPage | src/core/dl/youtube_search.go:134-190 | reading back a whole response: of a page of videos, nested as YouTube nests it, exactly the complete ones that are not live come out, in order |
| Durations.SplitJoin | src/core/dl/youtube_search.go:459-470 | splitting at colons loses nothing and leaves none in a part |
| Durations.Atoi | src/core/dl/youtube_search.go:546-554 | the value of the digits, skipping everything else |
| Durations.SignedReads | src/core/dl/youtube_search.go:472-478 | a printed number reads back, with either sign in front |
| Durations.ParseDuration | src/core/dl/youtube_search.go:457-466 | the right-to-left weighted sum is the base-60 value of the parts |
| Durations.ParseTimeToSeconds | src/core/dl/youtube_search.go:468-480 | the left-to-right form computes it too, and 0 if a part is no number |
| Durations.ParsersAgree | src/core/dl/youtube_search.go:457-480 | both agree on every colon-separated text of non-empty digit parts |
| Durations.FormatTimeRoundTrip | internal/player/ui/progress.go:44-56 | both parsers invert FormatTime exactly on the non-negative times |
| Durations.FormatTimeText | internal/player/ui/progress.go:44-56 | the text is MM:SS with two digits each, with the hours in front, without a leading zero, from an hour on |
| Durations.ZeroText | src/utils/durations.go:110-112 | every time that is not positive is printed as 0:00 |
| Durations.SecToMinText | src/utils/durations.go:123-127 | minutes without a leading zero and two digits of seconds below an hour, and what FormatTime prints from then up to a day |
| Durations.SecToMinDays | src/utils/durations.go:119-121 | from a day on the days, "d", a space and HH:MM:SS |
| Durations.SecToMinRoundTrip | src/utils/durations.go:108-128 | both parsers invert SecToMin exactly from 0 to just below one day |
| Durations.DaysMisread | src/utils/durations.go:114-121 | a text with days is no number to one parser and a hundred hours per day to the other |

## Left out

- VoiceCalls.TelegramCalls.PlayNext: the calls on one chat are sequential and its queued tracks are distinct objects, as the handlers make them; the source does not make the call atomic. The contract speaks of the chat's own queue; that other chats keep theirs is proved for each queue operation it uses.
- VoiceCalls.TelegramCalls.PlayMedia: error texts, the leave-all goroutine and the log message are not modelled; an error is its class.
- QueueView.ApplySort: tracks are snapshots with an identity, so edits to a track while a view is built are not covered.
- QueueView.ButtonTargets: the callback reads the queue once; edits between showing a page and pressing a button are not covered.
- ParseResults.Results.ParseResults: a JSON object has its fields in a fixed order; Go picks one per traversal.
- Durations.Atoi: unbounded integers, so no overflow; likewise everywhere else.
- DownloadRetry.DownloadWithRetry: every attempt returns; panics in a provider are not covered.
- Background prefetching and SetTrackFilePath, the late duration lookup, and single-track playback, which add no new queue logic.
- The janitor that schedules sweeps; a sweep may run at any time instead.
- The rendered-text cache of internal/queue/manager.go, keyboards, labels, access checks and rendering.
- Telegram, MongoDB, HTTP, ffmpeg and the native call bindings, which are the outside world here.
- Label-style durations, playlist extraction and URL recognition, which are regular expressions and look-ups.
