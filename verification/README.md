# OSCam in Dafny

A model of the parts of the OSCam daemon (`oscam/`) that carry state over many calls, and proofs of what
they keep.  Each module follows one component of the daemon.  Code that updates its data step by step is
written as methods with loops, on arrays and on the fields of classes; each method is proved equal to a
function of its inputs or of the old state, and the results are proved about these functions, for all
inputs and all runs.

| module | component | main results |
|---|---|---|
| `CacheEx`, `CacheExWords`, `CacheExFlood`, `CacheExPaths`, `CacheExLoop`, `CacheExCoverage` | cache exchange between nodes | the flood of an answer ends after at most two steps per connection end; node lists are simple paths within the hop limits in all reachable states; without losses every node that pushing ends lead to gets the same control word; exactly which words get in and which are refused |
| `Cards`, `ShareList`, `ShareServices`, `ShareCopies` | building the CCcam share list | under every policy, for every history of insertions, which cards the list holds and what they carry; what becomes of the copies for clients without AU |
| `ShareMatching`, `ShareRefresh`, `ShareTold`, `ShareAllowed` | refreshing the share list | maximal one-to-one matching of new and old cards; stable, distinct ids over all runs; exactly when a client keeps the id of a card that is gone; no client is told of a card it may not have |
| `ShareTables` | the code of these | the loops and the state changes, each equal to its specification |
| `CardCodec`, `CardWire` | the card message | what the reader makes of what the writer wrote, and the message byte by byte |
| `CcCrypt`, `CcKeystream`, `CcLogin`, `CcLoginRefusal` | the CCcam cipher, its channel and the login | the two ends stay mirrored through login and any traffic; the cipher is RC4 with feedback; exactly which logins are accepted |
| `ReaderSession`, `ReaderSessionMessages` | the card table of a CCcam reader | counters, cards and outstanding requests agree in every session; what each message leaves |
| `RateLimiter`, `RateLimiterGuard`, `RateLimiterRefusal` | the ECM rate limiter | the sliding-window bound with its exact guard, the cooldown phases, and exactly when a request is refused |
| `LoadBalancer`, `LoadBalancerOrder` | the choice of readers | the destructive minimum loop is sort and take; the limit pays for exactly the readers asked; a better reader is asked before a worse one, in the fields of both |
| `Gbox`, `GboxRounds`, `SerialAlpha`, `SerialFrame`, `NanoSort`, `PidRetry` | algorithms on buffers, and the retry recursion | round trips, a stable sort, termination and order of retries |

`dafny verify dfyconfig.toml` checks the project.

## How it is modelled

- Locks make the calls atomic steps.  Time is a parameter, one reading per call.  SHA-1 is an arbitrary
  function with results of 20 bytes.  Filters (`chk_*`, and outside the share list also groups and reshare
  rules) are parameters or arbitrary choices, so the results hold for every outcome of them.
- Each step of the share list comes with the clients connected at that time and their settings, and the log
  names the client of every message.
- C integers are unbounded integers except where their width matters: cipher and gbox bytes are 8-bit
  vectors, the bytes of card messages are 0..255, share ids wrap at 2^32, the hop count of a stored card and
  the request index are bytes.
- Linked lists are sequences.  The list cursor matters in one place, where an element is inserted after a
  removal; `ShareTables.ServerList.Exchange` follows `oscam-llist.c`.
- In the flood each connection has its transport.  A CCcam end learns the id of its peer from the client or
  server data and pushes without it; a camd35 end learns it from an answer or from the first push and does not
  push before.  Either may forget it with a new connection.  Jobs and pushes are taken in any order and may be
  lost, and requests and answers of the nodes' own clients may come at any time.
- A card in `ReaderSession` is an object, so that a request can refer to a card that was removed; the results
  say that none does.

## What the proofs brought up

- Rate limiter: a free slot is marked with service id -1 in a 16-bit field, so the id 0xFFFF looks free.
  A probe for it can overwrite the entry of that service with a free slot behind it.  Without the override
  every such probe does harm; with it, a probe does harm if the one service that the bound allows for the
  override has been evicted already and still counts, or can still be evicted while the lost entry counts
  (`RateLimiter.Harms`).  This is exact: after a call that does harm requests of the reader alone exceed the
  bound, otherwise none do (`RateLimiterGuard.BoundExactlyIfSpared`).  The excess is never more than one
  service (`RateLimiterGuard.ExceededByOne`), and requests of the reader for 0xFFFF do no harm.
- Cache exchange: `cc_cache_push_chk` compares with the id of the peer even while it is not known, so a CCcam
  reader without server data sends an answer back to the node it came from (`CacheExLoop.AnswerSentBack`,
  exactly when: `CacheExPaths.SentBack`).  Nothing follows from it (`CacheExPaths.BackIsIgnored`), and cached
  lists stay simple paths (`CacheExPaths.ReachableSafe`).
- Share list: splitting an AU card of a reader leaves the mark on the card the reader keeps.  The next refresh
  does not split it again, so the copy for clients without AU is withdrawn (`ShareCopies.CopyIsWithdrawn`)
  and never comes back (`ShareCopies.LaterListsHaveNoCopies`).
- Share list: a card that is found again keeps its id without a word to the clients, although its hop,
  reshare value, providers or nodes may have changed, and the message that a card is gone goes only to the
  clients for which it is valid at that moment.  So a client that has lost the right to a card in silence
  keeps its id when it goes (`ShareTold.SilentRefreshStrands`).  `ShareTold.RunRight` says exactly when this
  happens, and `ShareTold.RunHeld` gives a guard under which a client holds exactly the cards it may have.
- Serial line: a payload that starts with 0x7E is taken for a frame and not framed
  (`SerialAlpha.MarkerIsNotFramed`).
- CCcam login: every attempt decrypts the check bytes in place, so an account whose name shares its first 20
  characters with one before it is not accepted for its password alone: the word it takes is encrypted under
  the passwords of both (`CcLoginRefusal.WordFor`, `CcLoginRefusal.AcceptedExactly`).
- CCcam channel: a message longer than the buffer is refused after its header; the body stays on the line, so
  the next read starts inside it (`CcCrypt.MessageArrives`).
- Share list: `equal_providers` counts and looks one way, so a card that lists a provider twice is taken for
  one with more providers.  It is right about a card exactly if the card lists none twice
  (`ShareList.EqualProvidersNeedsNoDoubles`), and so is the list under MINIMIZE_HOPS
  (`ShareList.ListedRightWithoutDoubles`).
- Load balancer: fallback readers are free of charge, yet they are skipped when the limit is used up, which
  happens exactly when the limit has nothing left beyond `nbest` (`LoadBalancer.NBestChosen`).
- The comment on `num_same_providers` says that it checks for exactly the same providers; it counts those
  that are found, and the model follows the code.
- In extended mode `cc_send_ecm` does not clear its card variable between requests, so a later request of the
  same call goes to the card of the first; `ReaderSession` allows any listed card.

## Model

| member | source | states |
|---|---|---|
| Gbox.FullTurn | oscam/module-gbox.c:97-103 | the 32 one-bit key rotations of one pass bring the key back |
| Gbox.UnmixMix | oscam/module-gbox.c:89-184 | one round of either mixer and its inverse round cancel in both orders, for every table, key and byte position |
| Gbox.BackwardUndoes | oscam/module-gbox.c:110-130 | after n backward rounds exactly the last n of the 32 forward rounds are undone, under the key as it then stands |
| Gbox.ForwardUndoes | oscam/module-gbox.c:89-108 | the same with the directions exchanged |
| Gbox.MixerInverse | oscam/module-gbox.c:89-184 | encrypt8/decrypt8 and encryptA/decryptA invert each other in both orders and leave the key as it was |
| Gbox.WindowInverse | oscam/module-gbox.c:132-148 | the same for an 8-byte window anywhere in a buffer |
| Gbox.ChainInverse | oscam/module-gbox.c:132-148 | xor-chaining a buffer and unchaining it cancel in both orders |
| Gbox.RoundTrip | oscam/module-gbox.c:186-196 | for every buffer of 9 or more bytes, key and table, decrypt after encrypt and encrypt after decrypt are the identity, overlapping windows included |
| Gbox.Encrypt8 | oscam/module-gbox.c:89-108 | the in-place loop computes the 32 mixed rounds and restores the key |
| Gbox.Decrypt8 | oscam/module-gbox.c:110-130 | likewise for the inverse rounds |
| Gbox.EncryptA | oscam/module-gbox.c:150-166 | likewise for the second mixer |
| Gbox.DecryptA | oscam/module-gbox.c:168-184 | likewise for its inverse |
| Gbox.EncryptB | oscam/module-gbox.c:141-148 | chain, mix the front window, unmix the back window; key unchanged |
| Gbox.DecryptB | oscam/module-gbox.c:132-139 | mix the back window, unmix the front one, unchain from the end; key unchanged |
| Gbox.Encrypt | oscam/module-gbox.c:186-190 | the buffer becomes the function that RoundTrip is about |
| Gbox.Decrypt | oscam/module-gbox.c:192-196 | likewise for the inverse function |
| GboxRounds.PasswordTurns | oscam/module-gbox.c:97-103 | the four key bytes are one number of 32 bits, rotated by one bit to the right in each round |
| GboxRounds.ForwardIsRounds | oscam/module-gbox.c:89-166 | for either mixer and every number of rounds: which byte is written in each round, and its value as a number modulo 256 |
| GboxRounds.EncryptedIs | oscam/module-gbox.c:141-190 | a buffer is the encrypted one if and only if it becomes, with its last window but one byte stirred, what the plain buffer becomes after the first mixer, the chain and the second mixer |
| SerialAlpha.UnescapedEscaped | oscam/module-serial.c:154-182 | unescaping undoes escaping for every byte string |
| SerialAlpha.RoundTrip | oscam/module-serial.c:154-182 | converting twice gives back every nonempty payload that does not start with 0x7E |
| SerialAlpha.MarkerIsNotFramed | oscam/module-serial.c:154-182 | a payload that does start with 0x7E is never framed: it comes back shorter by two or more bytes |
| SerialAlpha.FrameShape | oscam/module-serial.c:154-182 | a frame has the payload length plus 2 plus one per escaped byte, and no marker inside |
| SerialAlpha.FirstFrameIs | oscam/module-serial.c:580-585 | reading up to 0x7F stops at the first one |
| SerialAlpha.LineRoundTrip | oscam/module-serial.c:154-182 | any sequence of frames on a line is cut at the frame boundaries and read back, whatever follows |
| SerialAlpha.Memmove | oscam/module-serial.c:154-182 | overlapping moves keep the old bytes, in both directions |
| SerialAlpha.ToAlphastar | oscam/module-serial.c:154-182 | the in-place loop leaves the frame of the payload |
| SerialAlpha.FromAlphastar | oscam/module-serial.c:154-182 | the in-place loop leaves the unescaped inside of the frame |
| SerialAlpha.AlphaConvert | oscam/module-serial.c:154-182 | the routine frames or unframes, by the first byte |
| SerialAlpha.ReceiveFrame | oscam/module-serial.c:580-585 | bytes are read until 0x7F; a line without one is incomplete |
| SerialFrame.FrameAt | oscam/module-serial.c:167-180 | a frame byte by byte: 0x7E, each payload byte or its two-byte escape at the place that the bytes before it leave, 0x7F |
| NanoSort.SortedIsStableSort | oscam/module-dvbapi.c:374-396 | the sorted list has every element as often, in ascending tag order, with the order inside each tag kept |
| NanoSort.WithTagBelow | oscam/module-dvbapi.c:374-396 | collecting tag by tag collects the elements of each tag once and in order |
| NanoSort.BelowSize | oscam/module-dvbapi.c:374-396 | the collected elements never need more room than the source, and all of it at the end |
| NanoSort.NoRoom | oscam/module-dvbapi.c:374-396 | a copy can only fail to fit when the elements overrun the stated length |
| NanoSort.FilledIsWellFormed | oscam/module-dvbapi.c:374-396 | a buffer that elements fill exactly is well formed: nothing behind it is read |
| NanoSort.Pass | oscam/module-dvbapi.c:374-396 | one pass appends exactly the elements of its tag and finds the next greater tag |
| NanoSort.SortNanos | oscam/module-dvbapi.c:374-396 | a well-formed buffer is stably sorted and filled exactly, any other one is zeroed; nothing behind it changes; bytes behind the source are needed only when its last element runs over the end |
| RateLimiter.SweptSlots | oscam/oscam-chk.c:22-46 | slot by slot what the housekeeping loop moves, frees and keeps |
| RateLimiter.TidiedSlots | oscam/oscam-chk.c:22-60 | after housekeeping slot h holds an entry of the service or is free, and for every id but 0xFFFF it holds the entry if there was one; other live entries stay |
| RateLimiter.TidiedIsTidy | oscam/oscam-chk.c:14-94 | occupied slots keep distinct service ids, also after registering |
| RateLimiter.LimitedKeepsTidy | oscam/oscam-chk.c:136-156 | so does a whole call, and slots from the limit on stay free |
| RateLimiter.ProbeKeepsLive | oscam/oscam-chk.c:136-156 | a probe leaves the unexpired entries as they are if and only if it is not a request for id 0xFFFF in the one harmful position |
| RateLimiter.ReservedIsLost | oscam/oscam-chk.c:22-60 | in that position the entry is lost |
| RateLimiter.EntrySurvives | oscam/oscam-chk.c:14-94 | an entry that still counts survives every call, except as the one an override evicts and that of 0xFFFF under a probe in the harmful position |
| RateLimiter.RunKeepsInv | oscam/oscam-chk.c:126-156 | over every run in which no call does harm, whatever ids are asked for, the accepts of the last window are held in the slots, with the override all but those for one service, and while these count no other service can go |
| RateLimiter.SlidingWindow | oscam/oscam-chk.c:126-156 | over every such run, in any window of ratelimitseconds at most max different services are accepted, one more with the override |
| RateLimiter.LossLeaves | oscam/oscam-chk.c:22-60 | slot by slot what the harmful probe leaves: exactly the other entries that count |
| RateLimiter.SelectedSorts | oscam/oscam-chk.c:96-116 | the partial selection sort permutes the slots and puts the youngest first, in order |
| RateLimiter.YoungestKept | oscam/oscam-chk.c:96-124 | entering the limiting phase keeps exactly the youngest slots, in descending order, and frees the rest |
| RateLimiter.CheckKeepsInv | oscam/oscam-chk.c:158-242 | in the limiting phase every slot from ratelimitecm on is free, in all reachable states |
| RateLimiter.Transitions | oscam/oscam-chk.c:158-242 | exactly when each phase is entered and left, in both directions, and from when it counts; a probe never starts the delay phase |
| RateLimiter.LimitHolds | oscam/oscam-chk.c:126-242 | while the limit is in force and no call does harm, no window sees more than ratelimitecm services, one more with the override |
| RateLimiter.CooldownRun | oscam/oscam-chk.c:158-242 | the phase invariant holds after every run of calls |
| RateLimiterGuard.HarmBreaksBound | oscam/oscam-chk.c:14-94 | the converse: after every reachable run that ends with a call that does harm, requests of the reader alone take it over the bound |
| RateLimiterGuard.BoundExactlyIfSpared | oscam/oscam-chk.c:14-156 | the bound holds for a run and for whatever the reader asks for after any part of it, if and only if no call of the run does harm, with and without the override |
| RateLimiterGuard.ExceededByOne | oscam/oscam-chk.c:14-156 | over all runs, harmful or not, the bound is exceeded by at most one service |
| RateLimiterGuard.ReservedSrvidBreaksBound | oscam/oscam-chk.c:14-94 | an instance from the first start: an accepted request for 0xFFFF, a probe for it a second later, and requests of the reader exceed the limit of 3 in 10 seconds |
| RateLimiter.Limiter.Tidy | oscam/oscam-chk.c:22-60 | the housekeeping loop computes the tidied slots |
| RateLimiter.Limiter.FindSpace | oscam/oscam-chk.c:14-94 | finds the slot and leaves the state of the specification |
| RateLimiter.Limiter.SortEcmrl | oscam/oscam-chk.c:96-124 | leaves the youngest slots in order and frees the others |
| RateLimiter.Limiter.Check | oscam/oscam-chk.c:126-242 | answer and state of the three-phase check |
| RateLimiter.Limiter.CountPending | oscam/oscam-chk.c:183-196 | stops early, with the answer whether more than ratelimitecm entries count |
| RateLimiterRefusal.NoLimitAcceptsAll | oscam/oscam-chk.c:132-133 | a reader without a limit accepts every request of every run and keeps no record |
| RateLimiterRefusal.RefusedExactly | oscam/oscam-chk.c:14-242 | for every state, phase and call: a request is refused if and only if each slot that may be used holds another service requested at most ratelimitseconds ago, and no override is due |
| CcCrypt.Mirror | oscam/module-cccam.c:51-68 | decrypting what was encrypted from an equal state gives the text and an equal state, and the other way round |
| CcCrypt.Chunked | oscam/module-cccam.c:51-68 | the cipher does not depend on how its input is cut |
| CcCrypt.CryptKeepsPermutation | oscam/module-cccam.c:51-68 | the key table stays a permutation |
| CcCrypt.InitIsPermutation | oscam/module-cccam.c:33-49 | key setup makes a permutation of 0..255 |
| CcCrypt.TablesStayPermutations | oscam/module-cccam.c:33-68 | the table is a permutation whatever was sent or received |
| CcCrypt.SizeRoundTrip | oscam/module-cccam.c:592-606 | the size written into a header is the size read from it |
| CcCrypt.MessageArrives | oscam/module-cccam.c:519-558 | a message arrives unchanged exactly if it fits a buffer of at least four bytes; one too long is refused after its header and its body stays on the line |
| CcCrypt.Channel | oscam/module-cccam.c:519-606 | any sequence of fitting messages arrives in order, and both ciphers end in the same state |
| CcCrypt.CryptBlock.Init | oscam/module-cccam.c:33-49 | the loops compute the initial state |
| CcCrypt.CryptBlock.CryptData | oscam/module-cccam.c:51-68 | the in-place loop computes bytes and state |
| CcKeystream.OutputByte | oscam/module-cccam.c:51-68 | every byte of the output is the byte of the input, the RC4 key byte of its position and all plain bytes before it, for every text, position and direction |
| CcKeystream.MixedScheduled | oscam/module-cccam.c:33-44 | the key table and the index after each swap, in integers modulo 256 |
| CcKeystream.CipherIsRc4WithFeedback | oscam/module-cccam.c:33-68 | so the cipher is RC4 with its key schedule, and the plain text added to all that follows it |
| CcKeystream.HeaderIs | oscam/module-cccam.c:592-606 | the bytes of a header |
| CcKeystream.SeedIsMixed | oscam/module-cccam.c:88-98 | the seed byte by byte, in integers modulo 256 |
| CcLogin.StartsMirrored | oscam/module-cccam.c:3173-3183 | after the seed is exchanged the blocks of the two ends mirror each other |
| CcLogin.NameArrives | oscam/module-cccam.c:3187-3225 | the server reads exactly the name of the client and reaches its cipher state |
| CcLogin.SearchFinds | oscam/module-cccam.c:3227-3256 | the first account with the name accepts when its password recovers the check word |
| CcLogin.LoginSucceeds | oscam/module-cccam.c:3163-3298 | with one matching account and the same password of at most 63 bytes both sides accept and stay mirrored, for every seed |
| CcLogin.NameDecides | oscam/module-cccam.c:3200-3256 | a name is illegal exactly if its first 20 bytes hold a control character, and only an account with the name is accepted |
| CcLogin.CcXor | oscam/module-cccam.c:88-98 | the in-place exchange of a seed half computes its table function |
| CcLogin.Peer.StartServer | oscam/module-cccam.c:3173-3183 | server blocks and hash from the seed |
| CcLogin.Peer.StartClient | oscam/module-cccam.c:3468-3481 | client blocks and hash from the seed |
| CcLogin.Peer.CmdSend | oscam/module-cccam.c:592-606 | header and payload are encrypted as one message |
| CcLogin.Peer.MsgRecv | oscam/module-cccam.c:501-566 | the refusal of a bound below four, header, bound check and body, with the cipher state and the rest of the line after each outcome |
| CcLogin.Peer.SendOffer | oscam/module-cccam.c:3483-3497 | hash, name field and check word of the client |
| CcLogin.Peer.FindAccount | oscam/module-cccam.c:3227-3256 | the account search on the check bytes as they change; its outcome is the one of SearchEndsAt |
| CcLogin.Peer.Login | oscam/module-cccam.c:3187-3297 | the verdict of the server and its state; acceptance and refusal are those of AcceptedExactly |
| CcLogin.Peer.CheckAck | oscam/module-cccam.c:3499-3508 | the outcome of AnswerExactly, and the cipher state |
| CcLoginRefusal.SearchEndsAt | oscam/module-cccam.c:3227-3256 | the search ends with the first account for which the check bytes are the one right word, which counts the attempts before it |
| CcLoginRefusal.AcceptedExactly | oscam/module-cccam.c:3199-3265 | for all accounts and check bytes: a client with a printable name is accepted if and only if it sent that word for an account of its name, as the first such account, and refused otherwise |
| CcLoginRefusal.OnlyTheRightWord | oscam/module-cccam.c:3199-3265 | with one account of the name, the server accepts if and only if the check bytes are those that a client computes from the password of this account |
| CcLoginRefusal.AnswerExactly | oscam/module-cccam.c:3499-3508 | the client accepts exactly an answer that decrypts to a text starting with the bytes of CCcam, which is one that starts as its mirrored server sends it |
| CacheEx.PushKeepsFoundCw | oscam/module-cacheex.c:355-437 | one push to a node that has found the answer: same entry, no cascade |
| CacheEx.AcceptedPushLowersRc | oscam/module-cacheex.c:285-474 | a push changes nothing, or turns an answer not found into one found with the code of cache exchange |
| CacheEx.UnhandledDies | oscam/module-cacheex.c:285-474 | a pushed unhandled answer has no effect |
| CacheEx.ConflictBlocks | oscam/module-cacheex.c:255-283 | a refused word stays refused while fewer than 32 others follow |
| CacheEx.TargetsMembers | oscam/module-cacheex.c:135-191 | a cascade goes to the selected clients that push (account mode 2, reader mode 3) other than the source, each at most as often as selected |
| CacheEx.CacheNode.AddInvalidCw | oscam/module-cacheex.c:255-268 | the bounded list of refused words after one more |
| CacheEx.CacheNode.IsInvalidCw | oscam/module-cacheex.c:270-283 | membership in the list |
| CacheEx.CacheNode.CheckCw | oscam/module-cacheex.c:302-332 | a word is let in if its checksums hold, it is not zero and not refused |
| CacheEx.CacheNode.CachePush | oscam/module-cacheex.c:135-191 | queues a job per client and marks the answer as pushed, once |
| CacheEx.CacheNode.PushIn | oscam/module-cacheex.c:285-474 | entry, refused words and jobs after a push came in: the state that EntersExactly, ListIsKept and RefusesExactly describe |
| CacheEx.CacheNode.PushCheck | oscam/module-cccam.c:1952-1987 | a push may leave only under the hop limit and to a peer that is not on its list; a CCcam end that does not know its peer compares with zeros, a camd35 end (module-camd35.c:497-551) does not push |
| CacheExWords.WordIsAcceptable | oscam/module-cacheex.c:302-332 | a control word passes exactly if each fourth byte is the sum of the three before it modulo 256, one of the others is not zero, and it was not refused |
| CacheExWords.EntersExactly | oscam/module-cacheex.c:285-474 | a push changes the entry of a node if and only if the answer is not found yet and the push brings such a word over an end that lets it in, within its hop limit; the jobs then go to exactly the pushing ends but the source |
| CacheExWords.ListIsKept | oscam/module-cacheex.c:355-437 | the node list that the entry then has |
| CacheExWords.JobSendsExactly | oscam/module-cccam.c:1952-2062 | when a job sends, and the push it sends: word, code and the list with the own node in front |
| CacheExWords.FoundWordIsGood | oscam/module-cacheex.c:302-332 | over every run, a word that a node found without its own readers is a good one |
| CacheExWords.RefusesExactly | oscam/module-cacheex.c:396-420 | two different good words that meet at a node are both the last on its list of refused ones, and nothing else changes that list |
| CacheExWords.NeitherComesBack | oscam/module-cacheex.c:255-420 | while fewer than 31 further words are refused, neither of them gets into an empty or open entry, from whatever peer |
| CacheExFlood.FoundStays | oscam/module-cacheex.c:355-437 | over every run, an answer a node has found stays as it is, control word included, unless one of its own readers brings a better code |
| CacheExFlood.ClosingPays | oscam/module-cacheex.c:135-191 | a node that finds the answer pays for its jobs with its own connection ends |
| CacheExFlood.DeliverWeight | oscam/module-cacheex.c:355-474 | a delivery lowers the potential of the flood |
| CacheExFlood.AnswerWeight | oscam/oscam.c:1985-2062 | a local answer does not raise it |
| CacheExFlood.FloodBound | oscam/module-cacheex.c:135-191 | the flood steps of any run are bounded by the potential at its start |
| CacheExFlood.FloodTerminates | oscam/module-cacheex.c:135-191 | no run, in any graph and order, with losses and local answers, has more than two flood steps per connection end |
| CacheExPaths.JobSafe | oscam/module-camd35.c:497-627 | what leaves a node over either transport is a simple path that starts with it, and avoids the addressee if its id was known |
| CacheExPaths.LongerPath | oscam/module-camd35.c:553-627 | putting the own id in front keeps the list a simple path |
| CacheExPaths.ArrivalSafe | oscam/module-camd35.c:629-731 | what a push leaves in the cache is a simple path without the node itself, within its hop limit, of nodes that have found the answer |
| CacheExPaths.AnswerSafe | oscam/oscam.c:1985-2062 | a local answer keeps every list safe |
| CacheExPaths.ReachableSafe | oscam/module-cccam.c:1952-2135 | in all reachable states every cached list and every push under way is such a path; every node on a list and every node with a job has found the answer; over camd35 a push avoids its addressee |
| CacheExPaths.SentBack | oscam/module-cccam.c:1952-1987 | exactly when a job sends a push to a node on its list: the CCcam end does not know the id of its peer, which is on the cached list |
| CacheExPaths.BackIsIgnored | oscam/module-cacheex.c:355-474 | such a push has no effect on entries and jobs |
| CacheExLoop.AnswerSentBack | oscam/module-cccam.c:1952-2062 | a run in which it happens: a CCcam reader without server data sends an answer back to the node it came from |
| CacheExCoverage.CleanDeliver | oscam/module-cacheex.c:355-474 | without losses a delivered push leaves its node a holder, with a job for every other pushing client |
| CacheExCoverage.CleanRun | oscam/module-cacheex.c:99-133 | where camd35 ends know their peers, a job is only dropped when its peer already holds the answer |
| CacheExCoverage.FloodReachesAll | oscam/module-cacheex.c:135-191 | once nothing is under way, every node to which a chain of pushing ends leads from a holder has the same control word; only pushing ends need a peer that lets pushes in, and only those over camd35 need to know its id |
| CacheExCoverage.PairServed | oscam/module-cacheex.c:135-191 | the conditions can be met: a network of a server and a reader with the modes of the source, in which the flood runs and ends with both served |
| Cards.ComparisonsAreEqualities | oscam/module-cccam.c:1052-1075 | same_card and same_card2 compare for equality of the listed fields, so they are equivalences |
| ShareList.AddedIsExpansion | oscam/module-cccshare.c:693-712 | a call inserts its expansion in order: the copy for other clients first, then the card; the recursion goes one level deep |
| ShareList.AddProvidersFacts | oscam/module-cccshare.c:526-549 | merging providers is set union, adds no doubled one and needs no more room than counted beforehand |
| ShareList.EqualProvidersIsSetEquality | oscam/module-cccshare.c:658-682 | without doubled providers the comparison is equality of provider sets |
| ShareList.EqualProvidersNeedsNoDoubles | oscam/module-cccshare.c:658-682 | the comparison of a card with all cards without doubled providers is equality of provider sets if and only if the card itself lists none twice |
| ShareList.ShareListIsNearestOfEach | oscam/module-cccshare.c:759-823 | for every history the list has one card per kind, made from the earliest of the nearest cards |
| ShareList.DoublesBreakNearest | oscam/module-cccshare.c:759-792 | every card that doubles a provider, split or not, handed over or copied, breaks the rule after a rival without doubled providers |
| ShareList.ListedRightWithoutDoubles | oscam/module-cccshare.c:759-823 | a card is listed right after every history of cards without doubled providers if and only if it doubles none |
| ShareList.ShareListMergesClasses | oscam/module-cccshare.c:718-756 | if no inserted card exceeds CS_MAXPROV providers none listed does; every inserted card is served whole by one listed card, and nothing else is listed |
| ShareTables.AddCardProviders | oscam/module-cccshare.c:526-549 | the nested loops compute the merged provider list |
| ShareTables.AddCardNodes | oscam/module-cccshare.c:551-573 | likewise for remote nodes |
| ShareTables.CopySids | oscam/module-cccshare.c:505-523 | likewise for services, under the matching with wildcards |
| ShareTables.CopyCard | oscam/module-cccshare.c:583-606 | a copy has no id and each provider, node and service once |
| ShareTables.CountSameProviders | oscam/module-cccshare.c:635-652 | the number of providers found in the other card |
| ShareTables.CompareProviders | oscam/module-cccshare.c:658-682 | the decision on equal providers |
| ShareTables.MergeCard | oscam/module-cccshare.c:745-755 | groups are joined, providers merged, remote nodes and bad services cleared as the policy says |
| ShareTables.ServerList.Search | oscam/module-cccshare.c:718-800 | the first card that matches under the policy |
| ShareTables.ServerList.Exchange | oscam/oscam-llist.c:222-349 | removing and inserting at the cursor replaces in place, but moves to the end when the first element goes |
| ShareTables.ServerList.AddMinimizeCaid | oscam/module-cccshare.c:718-756 | the new list under MINIMIZE_CAID |
| ShareTables.ServerList.AddMinimizeHops | oscam/module-cccshare.c:759-792 | the new list under MINIMIZE_HOPS |
| ShareTables.ServerList.AddPlain | oscam/module-cccshare.c:795-823 | the new list otherwise |
| ShareTables.ServerList.Add | oscam/module-cccshare.c:693-830 | the new list after a call with its recursion, and the mark that a split leaves on the card of the caller |
| ShareServices.ListedCardsCarry | oscam/module-cccshare.c:505-830 | under every policy and for every history, each listed card carries what one of the cards added carries: all fields, good services as good and bad as bad ones, the same nodes and providers, with exactly the losses and gains of the policy; the card it was made from is the one of ShareListIsNearestOfEach |
| ShareCopies.LaterListsHaveNoCopies | oscam/module-cccshare.c:693-712 | for every set of cards of readers: once marked by a refresh, they give no copy for clients without AU to any later list |
| ShareCopies.FirstAndSecond | oscam/module-cccshare.c:693-712 | the lists of two refreshes with one AU card: the copy and the card, then the card alone |
| ShareCopies.CopyIsWithdrawn | oscam/module-cccshare.c:1168-1195 | the second refresh removes the copy of a remote card, and a client without AU may have nothing of what remains |
| ShareMatching.MatchingIsLargest | oscam/module-cccshare.c:851-894 | new and unexpired old cards are matched one to one, as many of each identity as there can be; ids and timeouts are taken over, nothing else changes; sizes add up |
| ShareMatching.UnchangedListIsSilent | oscam/module-cccshare.c:1168-1195 | a list with the same identities announces and removes nothing |
| ShareRefresh.BucketsAreShareLists | oscam/module-cccshare.c:27-33 | each CAID bucket is the share list of the calls for its CAIDs |
| ShareRefresh.RefreshBucketInv | oscam/module-cccshare.c:1168-1195 | replacing one bucket keeps the table invariant and brings no id back |
| ShareRefresh.SendInv | oscam/module-cccshare.c:242-293 | sending a card to any clients, with the id it may get, keeps the invariant and brings no id back |
| ShareRefresh.RunKeepsIds | oscam/module-cccshare.c:1162-1240 | over all runs each card is in its bucket, and until the 32-bit counter wraps the ids of reported cards are distinct and below the counter, those told to clients are below it, and an id out of use never comes back |
| ShareRefresh.StartInv | oscam/module-cccshare.c:16-18 | the empty table satisfies the invariant |
| ShareRefresh.ViewDecides | oscam/module-cccshare.c:399-485 | for cards that same_card takes for one, hop, reshare, providers, nodes and AU filter decide whether a client may have them |
| ShareRefresh.RefreshedTold | oscam/module-cccshare.c:295-316 | refreshing a bucket withdraws an id from a client exactly if a left-over card has it that is valid for the client |
| ShareTold.FromRight | oscam/module-cccshare.c:1168-1195 | one refresh leaves a client without ids of missing cards exactly if it had none before and every left-over card it was told of is valid for it |
| ShareTold.RunRight | oscam/module-cccshare.c:242-397 | over all runs, whatever happens to the settings of the client, it holds only ids of reported cards if and only if every card dropped while it held the id was valid for it at that moment |
| ShareTold.RunHeld | oscam/module-cccshare.c:1162-1240 | over all runs in which a card found again does not change in what decides for the client, the client holds the ids of exactly the reported cards it may have |
| ShareTold.ReportStartsHeld | oscam/module-cccshare.c:1221-1240 | the report at the login of a client makes it hold exactly these |
| ShareTold.SilentRefreshStrands | oscam/module-cccshare.c:295-316 | a run in which the guard fails: a client with one hop is told of a card, the card moves two hops away in silence and goes, and the client keeps its id |
| ShareAllowed.ValidIsMayHave | oscam/module-cccshare.c:399-485 | the decision in the fields of client and card: hops, own node, reshare, groups, AU and filters |
| ShareAllowed.OnlyAllowedCardsAreTold | oscam/module-cccshare.c:242-293 | over all runs until the counter wraps around, every announcement goes to a client of that step that may have the card with the announced id, which is in the table |
| ShareTables.Collect | oscam/module-cccshare.c:27-33 | the calls build the 32 share lists |
| ShareTables.ShareTable.ReportBucket | oscam/module-cccshare.c:851-894 | new bucket, left-over cards and list of new cards |
| ShareTables.ShareTable.SendRemoveCard | oscam/module-cccshare.c:295-316 | a removal goes to each client for which the card is valid, if it has an id |
| ShareTables.ShareTable.ClearReported | oscam/module-cccshare.c:360-388 | the removals of every left-over card, and an empty bucket |
| ShareTables.ShareTable.SendCard | oscam/module-cccshare.c:242-293 | the messages to the clients that get the card, and an id from the counter at the first |
| ShareTables.ShareTable.UpdateCardList | oscam/module-cccshare.c:1162-1218 | the table after a refresh, with the messages to each client |
| ShareTables.ShareTable.ReportCards | oscam/module-cccshare.c:1221-1240 | the table after reporting all cards to one client |
| CardCodec.EncodedSize | oscam/module-cccshare.c:121-239 | the length of a message; one that fits the buffer overflows no count byte |
| CardCodec.ProvsReadBack | oscam/module-cccshare.c:139-150 | the provider loop reads back what the provider loop wrote |
| CardCodec.CardArrives | oscam/module-cccam.c:1765-1858 | wherever a written card stands at the start of a buffer, reading gives the card as the format carries it |
| CardCodec.WrittenCardArrives | oscam/module-cccshare.c:121-239 | so reading the buffer of the writer does, under the one condition that the message fits |
| CardCodec.ProvidersArriveUnchanged | oscam/module-cccam.c:1801-1817 | with AU providers arrive unchanged if and only if they have 24 bits and no 17xx card lists 0xFFFFFF |
| CardCodec.WriteSids | oscam/module-cccshare.c:155-217 | services are written and counted up to the limit of 200 or 240 |
| CardCodec.WriteExcluded | oscam/module-cccshare.c:168-192 | the services of all excluded tables, 240 in all |
| CardCodec.WriteCard | oscam/module-cccshare.c:121-239 | the buffer holds the message and zeros |
| CardCodec.ReadCard | oscam/module-cccam.c:1765-1858 | the loops compute the decoded card |
| CardWire.MessageStands | oscam/module-cccshare.c:121-239 | the message byte by byte: each field, count, provider, service and node at its offset, and which services are listed |
| LoadBalancer.LoopSortsAndTakes | oscam/module-stat.c:1291-1323 | finding the minimum again and again equals sorting and taking: best local readers, best others, fallbacks, within the limit |
| LoadBalancer.EachPickIsBest | oscam/module-stat.c:1291-1323 | no reader is picked twice and each pick is the best of those left in its phase |
| LoadBalancer.RankingRanks | oscam/module-stat.c:1294-1300 | a ranking of all candidates exists |
| LoadBalancer.EvaluationLeavesRoom | oscam/module-stat.c:1099-1277 | asking for statistics leaves at least nbest of the limit, or all but one, and each counted local reader is a candidate |
| LoadBalancer.NBestChosen | oscam/module-stat.c:1099-1323 | for every nbest, also one above the limit: the best readers are chosen, local ones first, as many as nbest, candidates and what statistics leave of the limit allow, which is no loss for nbest below the limit, and else leaves the limit less one at least; fallbacks follow unless the limit has nothing beyond nbest |
| LoadBalancer.AskedWithinLimit | oscam/module-stat.c:1099-1377 | every reader asked is paid for from the limit, with the stated exceptions, and a configured limit is never overdrawn |
| LoadBalancer.PicksCharge | oscam/module-stat.c:1291-1323 | the selection pays once for each primary reader and for no fallback |
| LoadBalancer.ReopenCharges | oscam/module-stat.c:1329-1374 | reopening pays for each reader and stops at zero |
| LoadBalancer.Request.ResetStat | oscam/module-stat.c:614-631 | the statistics of all connected readers start again |
| LoadBalancer.Request.Evaluate | oscam/module-stat.c:1148-1277 | the answers and counters after evaluation |
| LoadBalancer.Request.EvaluateOne | oscam/module-stat.c:1153-1274 | one round of the loop: answers, counters and budgets; values are those that ValueOrder orders |
| LoadBalancer.Request.FindBest | oscam/module-stat.c:1294-1300 | the earliest answer of least value |
| LoadBalancer.Request.Select | oscam/module-stat.c:1279-1323 | picks, flags and remaining limit |
| LoadBalancer.Request.Reopen | oscam/module-stat.c:1329-1374 | the answers after the reopening loops |
| LoadBalancer.Request.GetBestReader | oscam/module-stat.c:1099-1377 | the readers asked and the limit left, which PreferredIsAsked, NBestChosen and AskedWithinLimit are about |
| LoadBalancerOrder.ValueOrder | oscam/module-stat.c:1171-1271 | heavier in no field, not valued higher; lighter, valued lower: by response time, usage or last use as the mode says, weight, free slots, pending requests and failures |
| LoadBalancerOrder.RankedAre | oscam/module-stat.c:1153-1274 | exactly the readers with enough statistics, or without budget to get more, that can decode are candidates |
| LoadBalancerOrder.PreferredIsPickedFirst | oscam/module-stat.c:1291-1323 | a ranked reader is picked before every reader that it is preferred to |
| LoadBalancerOrder.PreferredIsAsked | oscam/module-stat.c:1099-1377 | for all requests: of two ranked readers the preferred one is asked if the other is, and not merely as a fallback if the other is not |
| LoadBalancerOrder.BetterReaderIsAsked | oscam/module-stat.c:1099-1377 | the same in the fields of the readers as they were given, when no reader has to be asked for statistics |
| LoadBalancerOrder.AskedForStatistics | oscam/module-stat.c:1153-1202 | evaluation itself asks exactly the cache exchange readers and, within the budget, those that lack statistics |
| LoadBalancerOrder.ReopensExactly | oscam/module-stat.c:1329-1374 | which readers a reopening loop asks: all that may be retried, in order, as far as the limit reaches |
| LoadBalancerOrder.FailedReadersAreRetried | oscam/module-stat.c:1325-1377 | without a limit: when failed readers are retried, and which |
| ReaderSession.RunKeepsInv | oscam/module-cccam.c:350-450 | over every session the hop and reshare counters count the cards of each kind, cards are different and foreign, waiting requests have different numbers, and no request or update refers to a card that is gone |
| ReaderSession.CountsPartition | oscam/module-cccam.c:2323-2330 | so the hop counters and the reshare counters each add up to the number of cards |
| ReaderSession.FewOutstanding | oscam/module-cccam.c:1343-1363 | at most 255 requests wait |
| ReaderSession.RemoveFromInv | oscam/module-cccam.c:1860-1893 | removing an announced card keeps the invariant |
| ReaderSession.MoveInv | oscam/module-cccam.c:1895-1913 | moving a card to the end keeps it |
| ReaderSession.AddInv | oscam/module-cccam.c:2265-2343 | a new card keeps it: own, known and filtered cards are dropped |
| ReaderSession.SendInv | oscam/module-cccam.c:1343-1380 | sending a request keeps it, also when its number is taken over |
| ReaderSession.ReceiveInv | oscam/module-cccam.c:2437-2478 | an answer keeps it, whatever it means for the card |
| ReaderSession.Session.ServerData | oscam/module-cccam.c:2159-2172 | server data empty the table |
| ReaderSession.Session.NewCard | oscam/module-cccam.c:2265-2343 | cards, counters and update card after the message |
| ReaderSession.Session.FreeEntries | oscam/module-cccam.c:421-440 | the entries of a card are removed, or lose the card |
| ReaderSession.Session.RemoveCards | oscam/module-cccam.c:1860-1893 | the state of CardIsRemoved, with the counters that the invariant fixes |
| ReaderSession.Session.MoveCardToEnd | oscam/module-cccam.c:1895-1913 | the card goes to the end and its entries lose it |
| ReaderSession.Session.SendEcm | oscam/module-cccam.c:1343-1380 | the entry of the request is new or takes over its number |
| ReaderSession.Session.Reply | oscam/module-cccam.c:2636-2700 | the entry goes and the card stays, moves or goes |
| ReaderSessionMessages.CardIsRemoved | oscam/module-cccam.c:1860-1893 | no listed card has the id afterwards, no request and no update card refers to one, and all other cards and requests are left in order |
| ReaderSessionMessages.CardIsAdded | oscam/module-cccam.c:2265-2343 | a card that is acceptable, foreign, wanted and unknown comes last, one hop farther; otherwise nothing changes |
| ReaderSessionMessages.RequestIsSent | oscam/module-cccam.c:1343-1380 | the number of the request, its entry, and that all other entries stay in place |
| ReaderSessionMessages.AnswerIsHandled | oscam/module-cccam.c:2437-2490 | the request no longer waits, and its card is gone, last or in place, exactly by the answer; what refers to it follows |
| ReaderSessionMessages.NoneWaitsAfterwards | oscam/module-cccam.c:379-398 | after an answer no request has its number, and an answer to no request does nothing |
| ReaderSessionMessages.ServerDataEmpties | oscam/module-cccam.c:2159-2172 | nothing is left after server data |
| PidRetry.ChooseIsBest | oscam/module-dvbapi.c:1288-1307 | the chosen stream is unchecked, of the greatest status in 0..max_status, and the first of those |
| PidRetry.OrderRanks | oscam/module-dvbapi.c:1288-1307 | choosing again and again lists every open stream once, by falling status |
| PidRetry.AllAskedInOrder | oscam/module-dvbapi.c:1272-1374 | in request mode 1 one call asks all open streams in that order, as far as BISS requests find a slot |
| PidRetry.AskingAll | oscam/module-dvbapi.c:1340-1366 | with enough slots that is each open stream exactly once |
| PidRetry.ThreeRounds | oscam/module-dvbapi.c:1272-1374 | otherwise successive calls ask the streams in order, three times over |
| PidRetry.LastRoundEnds | oscam/module-dvbapi.c:1272-1286 | and the next call gives up, or starts again after a new sorting |
| PidRetry.Demux.Search | oscam/module-dvbapi.c:1288-1307 | the loops over status and stream compute the choice |
| PidRetry.Demux.TryNextCaid | oscam/module-dvbapi.c:1272-1374 | the recursion ends and leaves the specified channel |
| PidRetry.GetDescIndex | oscam/module-dvbapi.c:582-597 | the least positive number that no stream of any channel has |

## Left out

- RateLimiter.SlidingWindow: limits above MAXECMRATELIMIT (20) are not modelled; the configuration reader does not refuse them.
- RateLimiter.LimitHolds: runs with a call that does harm are excluded, because the bound fails after them.
- SerialAlpha.ToAlphastar: the buffer must have 4 * l + 4 bytes, because the memmove of the original copies more bytes than belong to the message.
- NanoSort.SortNanos: the last element must be readable to its end even where it runs over the stated length, as the original reads it without a check.
- CcLogin.LoginSucceeds: the first account with the first 20 characters of the name; when later ones are accepted is said by `CcLoginRefusal.AcceptedExactly`.
- CcLoginRefusal.OnlyTheRightWord: passwords of at most 63 bytes, because the client uses 63 and the server 64; AcceptedExactly has no bound.
- ShareAllowed.OnlyAllowedCardsAreTold: says nothing after the 32-bit counter has wrapped around.
- LoadBalancerOrder.FailedReadersAreRetried: without a limit; with one, ReopensExactly says how far each loop reaches.
- CcLogin.Peer.MsgRecv: the buffer of the caller is taken to have four bytes more than the bound for the header; socket errors and timeouts are not modelled beyond a short line.
- CcLogin.Peer.Login: the refusals of disabled and duplicate accounts and of cccmaxhops below -1, which come after the name and password checks, are not modelled.
- SerialAlpha.ReceiveFrame: the header bytes that oscam_ser_recv reads before this loop are not modelled.
- ShareList.ShareListIsNearestOfEach: under MINIMIZE_HOPS the inserted cards must not list a provider twice, because the result fails for every card that does.
- ShareTables.ShareTable.UpdateCardList: which cards come from which reader is a parameter, so that the marks are carried from one refresh to the next only in `ShareCopies`.
- ShareRefresh.RunKeepsIds: says nothing about ids after the 32-bit counter has wrapped around; nor do the results of ShareTold.
- ShareTables.ShareTable.SendCard: the bytes of the message are not part of it; the reshare value for each client, and the checks of idents, CAIDs, services and service tables in card_valid_for_client, are functions given with the client.
- CardCodec.WriteCard: the message must fit the buffer of 1024 bytes, which the original does not check; a table number beyond the 64 bits of the exclusion mask is not modelled.
- CardWire.MessageStands: of more than 240 services of excluded tables it says that 240 are listed, not that they are the first; `CardCodec.BadList` says that.
- CardCodec.ReadCard: the counts in the message must lie inside the buffer, which the original does not check.
- LoadBalancer.Request.Evaluate: overflow of the 32-bit products is not modelled.
- LoadBalancer.Request.ResetStat: resets the statistics of the readers of the request, while the original resets those of all active readers.
- PidRetry.Demux.TryNextCaid: the filter and descrambler calls are not modelled; what a new sorting leaves is a parameter.
- ReaderSession.RunKeepsInv: starts at a successful login; the time between a failed reconnect's clearing of the cards and of the counters is not covered.
- ReaderSession.Session.SendEcm: the choice of the card is a parameter; get_matching_card, blocked and good services and card ratings are not modelled.
- CacheExCoverage.FloodReachesAll: local answers that come after a push for the same key are not covered, as they are not pushed on; a camd35 end that pushes must know the id of its peer from the start and keep its connection, because its push is dropped otherwise.
- CacheExPaths.ReachableSafe: CCcam accounts in stealth mode, where a node has a second id, are not modelled.
- CacheEx.CacheNode.PushIn: the answer is stored at once, while the original may leave that to the thread of the client; expiry of cached answers and answers with code E_99 are not modelled.
- CCcam: the additional crypto step after a control word, cc_crypt_cmd0c and the CMD05 variants.
- The collection of cards in update_card_list from services, readers and clients: it is a sequence of calls here.
- Choosing the tunnel CAID (auto betatunnel) in stat_get_best_reader, and all statistics display.
- MD5, AES, RC6, IDEA, DES, CRC and LZO, with gbox_compress and gbox_decompress.
- The PMT and CAT parsers, dvbapi_resort_ecmpids and UA_right: device conventions without a specification to prove.
- Sockets, threads, files, logging, newcamd, radegast, pandora, camd33, constcw, csp, monitor, display and web interface: plumbing, or easy members only.
- The menu code under Mvapp: drawing and key handling.
