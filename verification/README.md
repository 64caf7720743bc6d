# A verified model of the RPG server's SHA-256 object and session pool

Two parts of the server are modelled and proved correct here.

**The incremental SHA-256 object** (`IOCP/SHA256.h`, `IOCP/SHA256.cpp`). It has a 64-byte buffer, an
eight-word chaining value, a bit counter and a finalized flag, all updated in place.

- `Fips180.dfy` states FIPS 180-4 as pure recursive functions: padding, schedule, rounds, digest.
- `Sha256.dfy` is the class, with its arrays, counters and loops. Its ghost fields hold the message
  the object stands for and every byte the compression function has been given.
- `HasherModel.dfy` gives every call as a function on the fields' values, and proves what the fields
  mean. The class is proved equal to it, call by call. `HasherRuns.dfy` proves laws of whole runs.
- `Compression.dfy` and `Padding.dfy` prove what rounds, feed-forward, schedule and padding preserve, and
  characterize the padded message.
- `RootConstants.dfy` proves that the constants are the ones that FIPS 180-4 defines, from roots of primes.
- `KnownAnswer.dfy` proves the published digest of "abc". `Evaluation.dfy` gives the rounds in a form that
  the verifier can evaluate on literals, and proves it to be the standard's.
- `Words.dfy` and `Hex.dfy` hold byte layouts and hexadecimal printing.

**The session pool** (`IOCP/SessionPool.h`), with the parts of `IOCP/Session.cpp` and
`IOCP/IocpServerBase.cpp` that it calls back into.

- `SessionPool.dfy` has the classes. Disconnecting a session tells its server, and the server may
  return the session to the pool, so `Release` can re-enter itself; the contracts follow that path.
- `PoolModel.dfy` gives the same calls on values, one at a time.
- `PoolSteps.dfy` gives them under any number of threads, one atomic operation at a time: the
  exchange of the connected flag, the closing of the socket, the report to the server, the reset and
  the push are separate steps, and so are the calls of other threads in between.
- `PoolSafety.dfy` proves when what threads have still to do comes in time, and when it does not;
  `PoolCounts.dfy` what is conserved; `PoolCalls.dfy` that calls end, and are the sequential ones when
  undisturbed; `PoolIds.dfy` what ids and `GetById` guarantee; `PoolOrder.dfy` in which order slots and
  ids are handed out.

## What the model takes as given

- A `uint32_t` is a 32-bit bit-vector. A `uint64_t` is a natural number reduced modulo 2^64 by every
  operation. `size_t` values are natural numbers; `bufferSize_` stays within 0..64.
- The bitwise expressions of `Transform` are the source's own. Its 32-bit sums are the functions
  `Plus`, `Sum4` and `Sum5`, which add modulo 2^32 in the source's order.
- The separate loops of `Transform`, `Pad`, `Finalize` and `CalculateHex`, the body of the loop in
  `Update`, and the two parts of `Release` outside and under the lock, are methods of their own, called
  where the source has them.
- The bodies of the session's methods are in `IOCP/Session.cpp` and `IOCP/IocpServerBase.cpp`, whose
  comments are in a Korean code page; the table below cites their callers and declarations instead.
  The pool's results rest on these effects of theirs:
  - `Session::Init` (`Session.cpp`, lines 23-37) stores the socket, the owner and the id it is given and
    sets the connected flag. Every result about ids needs the id; the others need the flag.
  - `Session::Disconnect` (lines 39-50) exchanges the connected flag for false. If it was set, it closes
    the socket, invalidates it, and reports to the owner, if any.
  - `IocpServerBase::NotifySessionDisconnect` (`IocpServerBase.cpp`, lines 350-357) hands the session to
    `ReleaseSession`. What a concrete server does there is a parameter. In the classes a server has any
    number of pools and chooses one, or none, for each session. In the models on values an owner either
    returns a session to its pool or keeps it; taking the second for every owner gives the results for
    a `Disconnect` that never comes back to the pool.
  - `Session::ResetForReuse` (`Session.cpp`, lines 52-85) clears the socket, the owner, the connected
    flag and the id. Only `PoolIds.GetByIdFindsTenancy`, `PoolIds.GetByIdScan`, `PoolIds.SharedIdIff` and
    `PoolIds.IdsAreNew` need the id to be cleared; the results about ids of any run, permitted or not, do not.
- Each section under the pool's lock, each `ResetForReuse`, and each access to the connected flag, the
  socket or the owner is one atomic step.
- A caller of `Disconnect` or `Release` has got its reference to the session in some tenancy: from Acquire,
  from `GetById`, or from a completion (`ovl->session`, `IOCP/IocpServerBase.cpp`, lines 322 and 337). Each
  call in the interleaved model carries that tenancy, and what the call then sets off carries the tenancy
  that it found. The code has no such number and nothing in the model's steps depends on it; it is there to
  say which calls come too late. Any call may carry any tenancy.

## What does not hold, and exactly when

- **A stale disconnection ends the next tenancy.** `Disconnect` looks at the connected flag only, not at
  whose tenancy it is. If two threads disconnect one session, the first may release it and the slot may
  be handed out again before the second comes to the exchange; the second then closes and releases the
  new tenant. So does a thread that kept its reference and calls `Disconnect` only after the reuse.
  `PoolSafety.StaleDisconnectionEndsNextTenancy` is a run of the first kind from a pool of one session,
  and `PoolSafety.StaleDisconnection` says what the late step does to any state. The exact condition is
  that Acquire does not hand out a slot that some thread is still about to disconnect, and that no one
  calls `Disconnect` with a reference from another tenancy: `PoolSafety.StepInTimeIff` for one step,
  `PoolSafety.TimelyIff` for all that may follow.
- **`Release` can push a slot twice.** If a session is still connected and its server returns
  disconnected sessions to the pool, `Release` disconnects it, which releases it, and then pushes the
  index again. `PoolModel.ReleasePushes` counts the pushes, `PoolModel.DoublePushSharesSlot` shows that
  the next two acquisitions then get one session, and `PoolModel.ReleaseSoundIff` gives the exact
  condition for one call. `PoolSafety.PermittedIffReleasesInTime` gives it for every interleaving: the
  calls it permits, which are made with a reference from the present tenancy, are exactly those after
  which no slot is freed twice and no thread that is ending a tenancy comes too late. It leaves stale
  disconnections aside; `PoolSafety.TimelyIff` does not.
- **The failure path of both connection handlers** (`IOCP/IocpServerBase.cpp`, lines 121-127 and
  258-264) disconnects a session and then releases it. `PoolModel.AbandonSoundIff` shows that this
  pushes the slot twice exactly when the server returns sessions to the pool.
- **The length field** is the true bit length only for messages under 2^61 bytes, which is also where
  FIPS 180-4 stops. `Padding.UnpadRecoversMessage` and `Padding.PaddedSuffix` say exactly what is lost.
- **Session ids** are unique and nonzero until the 64-bit counter wraps: `PoolIds.IdsAreNew`,
  `PoolIds.SharedIdIff` and, whether or not slots were pushed twice or disconnected late,
  `PoolIds.UniqueIds` and `PoolIds.SameIdSameTenancy`.

## Model

| member | source | states |
|---|---|---|
| Words.RotateRightIsCircular | IOCP/SHA256.cpp:27-30 | the two shifts and the or are the circular right shift, for each of the ten amounts used |
| Words.StoreThenLoadWords | IOCP/SHA256.cpp:80-87 | loading the bytes that the store loop of Finalize writes gives the chaining words back |
| Words.LoadThenStoreWords | IOCP/SHA256.cpp:108-111 | storing the words that the load loop of Transform reads gives the block's bytes back |
| Words.BigEndianRoundTrip | IOCP/SHA256.cpp:178-182 | the length bytes denote the number they were written from, for every number that fits |
| Words.BigEndianAt | IOCP/SHA256.cpp:179-182 | shifting right by whole bytes and masking picks out each byte of the big-endian layout |
| Hex.EncodeThenDecode | IOCP/SHA256.cpp:97-101 | two lower-case hex digits a byte decode to the bytes printed |
| Hex.EncodeInjective | IOCP/SHA256.cpp:97-102 | different byte strings print differently |
| Hex.EncodeAt | IOCP/SHA256.cpp:97-101 | the two characters for each byte are the digits, in 0123456789abcdef, of its high and its low half, in that order |
| Compression.RoundsThenInverse | IOCP/SHA256.cpp:129-146 | for every block, running the rounds backwards after running them forwards restores the eight registers |
| Compression.InverseThenRounds | IOCP/SHA256.cpp:129-146 | and the other way around, so the rounds are a bijection on registers |
| Compression.FeedForwardAdds | IOCP/SHA256.cpp:148-155 | subtracting the old chaining value from the new gives the registers, and subtracting the registers gives the old chaining value, all eight words in order |
| Compression.CompressAddsChain | IOCP/SHA256.cpp:105-156 | taking the chaining value that went in off the one that comes out, and running the rounds back over the block, gives the one that went in |
| Compression.FeedForwardAloneLosesInformation | IOCP/SHA256.cpp:148-155 | from the registers that are added in, the block determines the chaining value that went in |
| Compression.WindowThenUnschedule | IOCP/SHA256.cpp:113-118 | any sixteen consecutive schedule words give the block back |
| Compression.UnscheduleThenWindow | IOCP/SHA256.cpp:113-118 | any sixteen words occur at any place of some block's schedule |
| Compression.WindowDeterminesBlock | IOCP/SHA256.cpp:107-118 | two blocks of bytes whose schedules agree on sixteen consecutive words are equal |
| RootConstants.PrimesAreFirst | IOCP/SHA256.cpp:9-24 | the primes used below are all the primes from 2 to 311 in order |
| RootConstants.ConstantsAreRoots | IOCP/SHA256.cpp:9-24 | each round constant is the first 32 bits after the point of the cube root of its prime, and each word of the initial value (lines 38-46) that of the square root |
| KnownAnswer.DigestOfAbc | IOCP/SHA256.cpp:105-186 | the digest of "abc" is the one that NIST publishes |
| Padding.LengthFieldValue | IOCP/SHA256.cpp:160-182 | the length field reads as eight times the message length modulo 2^61 |
| Padding.UnpadRecoversMessage | IOCP/SHA256.cpp:158-186 | unpadding returns the message if and only if it is shorter than 2^61 bytes |
| Padding.PaddedSuffix | IOCP/SHA256.cpp:158-186 | one padded message ends another if and only if the second message is the first behind a multiple of 2^61 bytes |
| Padding.SuffixFree | IOCP/SHA256.cpp:158-186 | below 2^61 bytes that is only so for equal messages; padding is injective and suffix-free |
| Padding.BlockCount | IOCP/SHA256.cpp:158-186 | a message of n bytes pads to the ceiling of (n + 9) / 64 blocks |
| Padding.PadMessageIff | IOCP/SHA256.cpp:158-186 | a byte string is the padded message if and only if it is the message, the byte 0x80, zero bytes and the bit length, most significant byte first, in the fewest whole blocks |
| HasherModel.AbsorbByteRepresents | IOCP/SHA256.cpp:57-63 | one byte more keeps the fields the hash, the tail and the bit count of the message so far |
| HasherModel.AbsorbRepresents | IOCP/SHA256.cpp:55-64 | so does any amount of data |
| HasherModel.PadCompletesMessage | IOCP/SHA256.cpp:158-184 | the one or two blocks that Pad feeds complete the blocks already absorbed to the padded message of FIPS 180-4 |
| HasherModel.FinalizeRepresents | IOCP/SHA256.cpp:72-90 | finalizing an object that stands for a message returns that message's FIPS 180-4 digest, the first time and every time after |
| HasherRuns.RunRepresents | IOCP/SHA256.cpp:48-103 | after any sequence of calls the fields stand for the bytes absorbed since the current message began |
| HasherRuns.ReplyIsSpecified | IOCP/SHA256.cpp:48-103 | after any calls, the next reply is the one FIPS 180-4 prescribes for the current message |
| HasherRuns.TraceRefinement | IOCP/SHA256.cpp:48-103 | every reply of every run of updates, finalizations and CalculateHex calls is the prescribed one |
| HasherRuns.CountersOfRun | IOCP/SHA256.cpp:55-64 | while a message of n bytes is open the buffer holds n mod 64 bytes and the counter 512 (n / 64) bits modulo 2^64; once it is finalized, none and 8 n |
| HasherRuns.UpdateTwice | IOCP/SHA256.cpp:48-65 | two updates leave every field as one update with both pieces does, stale bytes included, from any state |
| HasherRuns.ChunksDoNotMatter | IOCP/SHA256.cpp:48-65 | neither does any cut of the data into any number of updates, from any state; only no update at all leaves a finalized object finalized, where an empty one would restart it |
| HasherRuns.ChunksHashWhole | IOCP/SHA256.cpp:48-90 | from a fresh object, any cut of a message into updates finalizes to the message's digest |
| HasherRuns.StepIgnoresStale | IOCP/SHA256.cpp:48-103 | one call replies the same and stays in step on objects that differ in stale buffer bytes only |
| HasherRuns.RunIgnoresStale | IOCP/SHA256.cpp:48-103 | so does any common sequence of calls |
| HasherRuns.CalculateHexForgets | IOCP/SHA256.cpp:92-103 | CalculateHex replies and leaves the object the same whatever came before, and a Finalize after it returns the same digest |
| HasherRuns.PrintedDigest | IOCP/SHA256.cpp:97-102 | a printed digest is 64 lower-case hex digits that decode to it |
| Sha256.SHA256.Schedule | IOCP/SHA256.cpp:107-118 | the array is filled with the 64 words of the standard's schedule recurrence |
| Sha256.SHA256.RunRounds | IOCP/SHA256.cpp:120-146 | the shifted registers end as the 64 recursive rounds of the standard do |
| Sha256.SHA256.Transform | IOCP/SHA256.cpp:105-156 | the chaining value becomes the standard's for one more block; nothing else changes |
| Sha256.SHA256.Reset | IOCP/SHA256.cpp:38-46 | the object starts an empty message |
| Sha256.SHA256.constructor | IOCP/SHA256.cpp:33-36 | a new object holds an empty message |
| Sha256.SHA256.AbsorbOne | IOCP/SHA256.cpp:57-63 | one byte joins the message, and a full buffer goes to the compression function |
| Sha256.SHA256.Update | IOCP/SHA256.cpp:48-65 | the data joins the message, or begins a new one after a finalization; all fields are those of the model |
| Sha256.SHA256.Pad | IOCP/SHA256.cpp:158-186 | exactly the one or two padding blocks are fed to the compression function |
| Sha256.SHA256.Finalize | IOCP/SHA256.cpp:72-90 | returns the FIPS 180-4 digest of the message, which stays; the blocks fed are the padded message, ceiling of (n + 9) / 64 of them |
| Sha256.SHA256.StoreState | IOCP/SHA256.cpp:80-87 | the 32 bytes are the chaining words, most significant byte first |
| Sha256.SHA256.Print | IOCP/SHA256.cpp:97-102 | the text is the bytes' hexadecimal encoding |
| Sha256.SHA256.CalculateHex | IOCP/SHA256.cpp:92-103 | returns the printed digest of its input, which becomes the finalized message |
| PoolModel.FreshHandsOutDownwards | IOCP/SessionPool.h:22-26 | a fresh pool of n sessions hands out slots n-1 down to 0, then none |
| PoolModel.AcquireManyPops | IOCP/SessionPool.h:33-37 | acquisitions pop the most recently pushed indices, in order |
| PoolModel.AcquireSound | IOCP/SessionPool.h:29-45 | acquiring keeps the free indices distinct and idle, and the slot handed out is no longer free |
| PoolModel.DisconnectIs | IOCP/SessionPool.h:52 | only the first disconnection acts; it closes the session or, through its server, returns it reset to the pool |
| PoolModel.DisconnectSound | IOCP/SessionPool.h:52 | disconnecting is always sound, and pushes at most once |
| PoolModel.ReleasePushes | IOCP/SessionPool.h:47-65 | Release pushes its index twice exactly when the disconnection already returned the session |
| PoolModel.ReleaseSoundIff | IOCP/SessionPool.h:47-65 | releasing keeps the free indices distinct if and only if the slot is held and its server does not return it by itself |
| PoolModel.AbandonSoundIff | IOCP/SessionPool.h:47-65 | disconnecting and then releasing, as both connection handlers do (lines 121-127 and 258-264 of IOCP/IocpServerBase.cpp), is sound if and only if the server does not return sessions |
| PoolModel.AbandonIs | IOCP/SessionPool.h:47-65 | on that failure path the session ends reset if its server returns sessions, and otherwise disconnected with its socket closed; nothing else changes |
| PoolModel.DoublePushSharesSlot | IOCP/SessionPool.h:55-64 | after a double push two acquisitions in a row get the same session |
| PoolSteps.StepKeepsInv | IOCP/SessionPool.h:29-65 | every permitted atomic step of any thread keeps the pool's invariant |
| PoolSteps.RunInv | IOCP/SessionPool.h:29-65 | so the invariant holds after every permitted interleaving |
| PoolSafety.ReleaseNeverDisturbs | IOCP/SessionPool.h:47-65 | after every permitted interleaving no index is free twice, and whatever a thread that is ending a tenancy has still to do, the exchange inside Release included, concerns a slot that still belongs to that tenancy; calls of Disconnect that have not begun are excepted |
| PoolSafety.StaleDisconnection | IOCP/SessionPool.h:52 | a disconnection meant for an earlier tenancy ends the later one and goes on to close and report it |
| PoolSafety.StaleDisconnectionEndsNextTenancy | IOCP/SessionPool.h:29-65 | the permitted run of two threads, from a pool of one session, in which that happens |
| PoolSafety.PermittedIffReleasesInTime | IOCP/SessionPool.h:47-65 | a call is permitted if and only if no permitted run after it frees a slot twice or lets a thread that is ending a tenancy, or releasing through a reference from an earlier one, come too late; stale disconnections are excepted |
| PoolSafety.StepInTimeIff | IOCP/SessionPool.h:29-65 | one permitted step keeps every pending operation in time, disconnections included, if and only if it is neither an Acquire of a slot that some thread is about to disconnect nor a call of Disconnect with a reference from another tenancy than the present one |
| PoolSafety.TimelyRunsNeverDisturb | IOCP/SessionPool.h:29-65 | under that condition no operation of any thread ever works on a later tenancy than the one it is meant for: for a disconnection, the one that its caller's reference is from |
| PoolSafety.TimelyIff | IOCP/SessionPool.h:29-65 | a call meets the condition and is permitted if and only if nothing at all comes too late in any run after it that does too |
| PoolCounts.Conservation | IOCP/SessionPool.h:67-76 | after every permitted run each slot is free, held by a tenancy whose id it carries, or being pushed by exactly one thread, only one of these, and the counts add up to the capacity |
| PoolCounts.QuiescentSound | IOCP/SessionPool.h:67-76 | when no call is under way every slot that is not free is held by a tenancy that has begun: no slot is lost |
| PoolCounts.AcquireGivesIdle | IOCP/SessionPool.h:29-45 | after every permitted run Acquire hands out an idle slot that no thread is ending, with the next id, the socket and the owner, and touches no other slot; it hands out none exactly when every slot is held or on its way back |
| PoolCounts.SocketsAreClosedOnce | IOCP/SessionPool.h:52-53 | after every permitted run the acquisitions made are the sockets closed plus those open; a close finds its tenancy's socket open, a reset finds it closed, and no free slot has one |
| PoolCalls.OwnStepsUseUpWork | IOCP/SessionPool.h:47-65 | in every permitted run a thread that stays busy takes at most six steps of its own, whatever others do in between |
| PoolCalls.CallsEnd | IOCP/SessionPool.h:47-65 | so a thread that takes six steps of its own has finished its call on the way |
| PoolCalls.WithinSixSteps | IOCP/SessionPool.h:47-65 | a thread left alone finishes its call within six steps, and the invariant holds then |
| PoolCalls.DisconnectUndisturbed | IOCP/SessionPool.h:52 | run without interruption, the atomic steps of a disconnection are the sequential disconnection |
| PoolCalls.ReleaseUndisturbed | IOCP/SessionPool.h:47-65 | run without interruption, the atomic steps of a release are the sequential release, permitted or not |
| PoolIds.NextIdCounts | IOCP/SessionPool.h:99 | after any run, permitted or not, the next id is one more than the acquisitions made, modulo 2^64 |
| PoolIds.IdsAreNew | IOCP/SessionPool.h:41-42 | after every permitted run a live session has the next id if and only if their tenancies are congruent modulo 2^64; before the counter wraps none has |
| PoolIds.GetByIdFindsTenancy | IOCP/SessionPool.h:78-93 | at one moment before the counter wraps, GetById finds a slot if and only if its tenancy has that id and is held and not yet reset |
| PoolIds.GetByIdScan | IOCP/SessionPool.h:83-92 | with resets of other threads between its reads, the scan returns a slot if and only if the tenancy with that id held it when it was read; one that holds it to the end is found |
| PoolIds.SharedIdIff | IOCP/SessionPool.h:85-90 | two live sessions carry one id if and only if their tenancies are congruent modulo 2^64; before the wrap only if they are the same slot |
| PoolIds.UniqueIds | IOCP/SessionPool.h:41-42 | after any run, permitted or not, two sessions carry one nonzero id if and only if their latest tenancies are congruent modulo 2^64; before the counter wraps only if they are the same slot |
| PoolIds.GetByIdFindsCarrier | IOCP/SessionPool.h:78-93 | so after any run before the counter wraps, permitted or not, GetById finds the one session that carries the id, and only that |
| PoolIds.TenantsGrowInRun | IOCP/SessionPool.h:41-42 | along any run, permitted or not, a slot's tenancy only grows, and stays if and only if the slot is not handed out |
| PoolIds.SameIdSameTenancy | IOCP/SessionPool.h:41-42 | a slot carries the same id at two moments of any run, permitted or not, at which it carries one, if and only if it was not handed out in between, before the counter wraps |
| PoolOrder.LastInFirstOut | IOCP/SessionPool.h:36-37 | after any run of any threads, Acquire hands out the slot that a backward reading of all pushes and pops so far finds pushed last and not popped since |
| PoolOrder.FreeAgrees | IOCP/SessionPool.h:22-64 | so does the whole free stack, from its top |
| PoolOrder.IdsIncrease | IOCP/SessionPool.h:41-42 | of two acquisitions in any run, permitted or not, the later gets the larger id, and both ids are nonzero, before the counter wraps |
| SessionPool.Session.Init | IOCP/SessionPool.h:42 | the session takes the socket, owner, role and id, is connected, and has nothing received (body at lines 23-37 of IOCP/Session.cpp) |
| SessionPool.Session.ResetForReuse | IOCP/SessionPool.h:53 | the session is idle: id zero, no owner or socket, flags clear, nothing received or waiting to be sent (body at lines 52-85 of IOCP/Session.cpp) |
| SessionPool.Session.Disconnect | IOCP/SessionPool.h:52 | only the first disconnection acts; the session ends disconnected and held, or reset and back in its pool, whose free sessions stay idle and free once (body at lines 39-50 of IOCP/Session.cpp) |
| SessionPool.IocpServer.NotifySessionDisconnect | IOCP/IIocpServer.h:16 | the server returns the session, reset, to the pool it chooses for it, or leaves it alone (body at lines 350-357 of IOCP/IocpServerBase.cpp) |
| SessionPool.SessionPool.constructor | IOCP/SessionPool.h:19-27 | all sessions are new, idle and free, each once |
| SessionPool.SessionPool.Acquire | IOCP/SessionPool.h:29-45 | pops the top index and initializes every field of that session but the send queue, which is empty if the free sessions were idle, and touches no other session; or returns null when none is free |
| SessionPool.SessionPool.Release | IOCP/SessionPool.h:47-65 | resets the session and pushes its index, once more if the disconnection did; null and foreign sessions leave the pool unchanged, and another pool gets what the server returns to it; free sessions stay idle and free once if and only if the session was held and its server did not return it by itself |
| SessionPool.SessionPool.EndTenancy | IOCP/SessionPool.h:52-53 | the session is disconnected and reset, and at most the pool that its server chooses gets it back |
| SessionPool.SessionPool.PushIndexOf | IOCP/SessionPool.h:57-64 | the index found by the session's address is pushed, and nothing for a session of another pool |
| SessionPool.SessionPool.GetById | IOCP/SessionPool.h:78-93 | returns the first session with the id, or null, and null for id 0 |
| SessionPool.SessionPool.FreeCount | IOCP/SessionPool.h:72-76 | the number of free indices |
| SessionPool.SessionPool.Capacity | IOCP/SessionPool.h:67-70 | the number of sessions |

## Left out

- `SHA256::Update(const std::string&)` and `std::string` inputs: the bytes of the string are the data.
- Messages of 2^61 bytes and more have no FIPS 180-4 digest; for them the digest here is the one with
  the length field that 64-bit arithmetic leaves.
- The table of round constants is the standard's and the source's alike; it is stated once.
- A session's overlapped structures and the error flag of its receive ring, and the hooks `OnInit`,
  `OnReset` and `OnClientDisconnected`, none of which the pool reads. The models on values also leave
  out the role, the receive ring, the send queue and the sending and closing flags.
- The destructor of `Session`, which disconnects, and `PostRecv`, `Send` and the completion handlers,
  which reach the pool only through `Disconnect`.
- `ResetForReuse` and `Init` touch several fields one after another; the interleaved model takes each
  as one step. Data races and memory order are outside the model.
- The interleaved model has no server that returns a session to a pool the session is not from; the
  classes do.
- `RecvRing`, `RingBuffer`, `BufferPool`, the gateway classes, sockets, completion ports and logging.
