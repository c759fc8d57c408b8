# Verification of emilib

emilib passes messages between processes: a daemon (`emi_core.c`) receives requests over sockets, puts each into a slot
of a shared memory segment, and signals the processes that registered for it; a client library (`emi_if.c`) sends
requests and runs callbacks from a signal handler. This project models its hard parts in Dafny and proves what they are
for.

* **AES** (`gf256`, `columns`, `fips197`, `aes_tables`, `emi_aes`, `emi_aes_keys`, `emi_aes_api`, `aes_sbox`,
  `aes_vectors`). FIPS 197 is stated over a byte state, for any S-box. The array methods that mirror `emi_aes.c`
  (T-tables, two rounds a turn, moving cursors, the equivalent inverse key schedule) are proved to compute it, and
  decryption is proved to undo encryption. Tables are functions of the S-box, as the comment in `include/emi_aes.h`
  defines them; `aes_sbox` adds the literal entries of `Te4` and `Td4`, and `aes_vectors` proves examples of FIPS 197
  with them. Words are 32 bits wide: `ulong32` may be wider in C, but no value leaves that range.
* **Lists, pool, table** (`common`, `lists`, `pool_spec`, `pool`, `layout`, `registry`, `registry_sweep`, `msg_table`).
  Heap objects with `next` and `prev` in place refine sequences; the invariants of all histories are proved on the
  sequences. Where a history breaks the pool, the condition is given exactly. `registry_sweep` says which processes are
  skipped when others are dead.
* **The pool under threads** (`pool_race`, `pool_owners`, `pool_order`, `pool_search`, `pool_lock`, `pool_ends`,
  `pool_overlap`). Any number of threads, each before, inside or between `__emi_obtain_space` and `__emi_return_space`:
  the look at the head, the test, the locked move, the write of `addr`, each step of the backward search, the move to
  the front and the clearing of `busy` interleave. A thread that gets no slot returns NULL, as `emi_recieve_operation`
  does. When slots keep one holder, when obtain fails and when a search finds its slot is given exactly; each failure is
  a run from an initial pool; one lock around all of obtain and return is shown to be enough.
* **Delivery** (`delivery`, `delivery_invariant`, `delivery_safety`, `delivery_progress`, `delivery_receipt`,
  `delivery_coverage`, `delivery_reach`, `delivery_request`). Any number of worker threads, receiving processes and
  slots, with an inductive invariant and theorems about every reachable state and every run; and what a request does
  that nothing comes between. Accesses to index cells, counts and locks, and operations on the table are the steps that
  interleave.
* **System** (`system`, `system_safety`, `system_overlap`). The workers of the delivery protocol on the pool under
  threads.
* **Reply** (`messages`, `reply`). One request from `emi_msg_send` through the worker and the callbacks of a receiver to
  the return value, statement by statement.

`dafny verify dfyconfig.toml` checks everything.

Choices of the delivery model:

* `count++` and `count--` are atomic. The source marks the missing lock (`emi_if.c:249-251`).
* `count` is 0 when a request has been read.
* The pid of a found entry is copied at the search; the source reads `m->pid` after the table lock is released
  (`emi_core.c:446`, `emi_core.c:452`), and deletes through `m`.
* Every pid is below `pid_max`, and the message numbers in use have a bucket: the hash yields 4096 values, the table has
  4095 entries.
* `kill` succeeds or fails at will. Where it succeeds, the process lives on, and its handler runs to the end and does
  not send. SIGUSR2 is blocked while its own handler runs, and pending signals do not queue.
* Searches, inserts and deletes are single steps, as `msg_map_lock` makes them.
* An obtain may give any slot, or none: which one it gives is left to the pool. Runs in which no worker is given a slot
  that another one has are called orderly; what is said about slots, counts and the absence of deadlock is said of
  orderly runs, all else of every run. Module `System` joins workers and pool: a worker has its slot from the write of
  `addr` to the beginning of the return. Runs are orderly when nobody holds what a thread takes or what a return of NULL
  frees (`SoundIff`); serialising obtain alone does not make them so (`TwoWorkersOwnASlot`), a lock around all of obtain
  and all of return does (`OneLockSuffices`), and so does a serialised obtain if a failed one is not followed by a
  return (`SerialObtainIsSound`).
* As many threads as there will be requests stand ready in the pool; a run has any number of them.
* There are fewer than 2^32 - 1 processes.
* A loop that spins without effect is not a step. Reading the request, writing the reply and the callbacks are one step
  each.

Choices of the reply model: connections deliver what was written or end early; callbacks are functions from the slot to
a return value and a new value of the slot; the request runs with one live receiver, and the delivery steps themselves
are those of the delivery model. The code's own quirks are kept: data of exactly the limit is not read
(`emi_core.c:403`) although the same size may be returned, and a short read of returned data still returns 0
(`emi_if.c:325-330`). The data of a slot stands for the memory that begins there, as far as the configured limit
reaches: `get_config` takes any value, and `SlotSufficesIff` and `SlotRoom` say from which one on data leaves its slot
of 1024 bytes; what is said of larger limits supposes that no other request uses the slots behind. Bytes that a read
writes behind the sender's buffer are not part of the model. Reads are full or short; the error value -1, which the
comparison with an unsigned size takes for a full read, is not modelled.

## Model

| member | source | states |
|---|---|---|
| `Columns.InvMixColumnUndoes` | include/emi_aes.h:13-23 | The column factors 0e 0b 0d 09 of the Td tables invert the factors 02 03 01 01 of the Te tables |
| `Columns.InvMixColumnLinear` | emi_aes.c:126-177 | Mixing a sum of columns is the sum of the mixed columns: why round keys may be mixed in advance |
| `Fips197.AesLayersInvertible` | include/emi_aes.h:13-23 | For every bijective S-box, the layers of a round can be undone and InvMixColumns respects key addition |
| `Fips197Inverse.InvRoundsMirror` | emi_aes.c:301-416 | After r inverse rounds the state is the one encryption had nr - r rounds in, before its last two steps |
| `Fips197Inverse.InvCipherUndoesCipher` | emi_aes.c:301-416 | The inverse cipher of section 5.3 of FIPS 197 undoes the cipher, for all round keys, numbers of rounds and blocks |
| `Fips197Inverse.EqInvCipherIsInvCipher` | emi_aes.c:126-177 | Section 5.3.5 refines section 5.3: with the reversed and mixed round keys the equivalent inverse cipher is the inverse cipher |
| `Fips197Inverse.CipherPrefix` | emi_aes.c:185-298 | Words of the schedule after round key nr have no influence |
| `Words.PackToColumn` | emi_aes.c:25-31 | LOAD32H puts four bytes where the byte macro finds them |
| `Words.ToColumnToWord` | emi_aes.c:16-23 | STORE32H writes all of a word: the four bytes determine it |
| `Words.XorToColumn` | emi_aes.c:198-201 | Exclusive-or of words is key addition of columns |
| `Words.Ror8ToColumn` | emi_aes.c:9-14 | RORc by 8 rotates the bytes of a column |
| `AesTables.TeColumn` | include/emi_aes.h:13-17 | Four Te lookups are SubBytes and MixColumns on one column |
| `AesTables.TksColumn` | include/emi_aes.h:852-991 | Four Tks lookups are InvMixColumns on one column |
| `AesTables.RconIsPowers` | include/emi_aes.h:993-997 | The round constants are the powers of x in the first byte |
| `EmiAes.Store32H` | emi_aes.c:18-23 | The four bytes are stored most significant first, and no other byte changes |
| `EmiAes.EncRound` | emi_aes.c:208-231 | One T-table round, with its shifted choice of source words, is SubBytes, ShiftRows, MixColumns and AddRoundKey |
| `EmiAes.LastEncRound` | emi_aes.c:268-295 | The last round from the single-byte tables is SubBytes, ShiftRows and AddRoundKey |
| `EmiAes.DecRound` | emi_aes.c:325-348 | One inverse T-table round is a round of the equivalent inverse cipher |
| `EmiAes.LastDecRound` | emi_aes.c:386-413 | The masked Td4 lookups are the last round of the equivalent inverse cipher |
| `EmiAes.EncStep` | emi_aes.c:208-262 | A round applied to the words of r rounds, with words 4r+4 to 4r+7 of the schedule, gives those of r + 1 rounds |
| `EmiAes.StoreBlock` | emi_aes.c:268-295 | The four stores leave the block in the first 16 bytes, and the rest alone |
| `EmiAes.AesEncrypt` | emi_aes.c:185-298 | For every schedule and nr >= 2 the output is the Cipher of section 5.1 of FIPS 197 (an odd nr runs as nr - 1), in bounds, also in place |
| `EmiAes.AesDecrypt` | emi_aes.c:301-416 | For every schedule and nr >= 2 the output is the EqInvCipher of section 5.3.5 of FIPS 197 (an odd nr runs as nr - 1), in bounds, also in place |
| `EmiAesKeys.SetupMixRotates` | emi_aes.c:33-38 | setup_mix is SubWord after RotWord |
| `EmiAesKeys.SetupMixOfRor8` | emi_aes.c:114-115 | setup_mix of RORc by 8 is SubWord alone, the extra step of 256-bit keys |
| `EmiAesKeys.OpeningWord` | emi_aes.c:68-69 | A word that opens a group of Nk is the word of section 5.2 of FIPS 197 |
| `EmiAesKeys.MiddleWord` | emi_aes.c:114-115 | So is the middle word of a group of eight |
| `EmiAesKeys.PlainWord` | emi_aes.c:70-72 | So are the others |
| `EmiAesKeys.Expand16` | emi_aes.c:65-77 | The loop writes words 4 to 43 of the key expansion and nothing behind them |
| `EmiAesKeys.Expand24` | emi_aes.c:78-98 | The loop writes words 6 to 51 and nothing behind them, leaving its last turn early |
| `EmiAesKeys.Expand32` | emi_aes.c:98-120 | The loop writes words 8 to 59 and nothing behind them, leaving its last turn early |
| `EmiAesKeys.InvertKey` | emi_aes.c:126-177 | Group r of dkey is group nr - r of ekey, through InvMixColumns unless it is an outer group; ekey and the words behind stay |
| `EmiAesKeys.ScheduleKey` | emi_aes.c:42-179 | 0 for 16, 24 and 32 bytes: ekey starts with exactly the key expansion of section 5.2, dkey with the round keys of section 5.3.5, all behind is unchanged; -1 and no change for other lengths |
| `EmiAesApi.DecryptBlockUndoes` | emi_aes.c:185-416 | For every bijective S-box, every key of the three lengths and every block, FIPS 197 decryption undoes encryption |
| `EmiAesApi.ScheduledEncrypt` | emi_aes.c:42-298 | Under a forward schedule, aes_encrypt's cipher is FIPS 197 encryption with the key |
| `EmiAesApi.ScheduledDecrypt` | emi_aes.c:42-416 | Under an inverse schedule, aes_decrypt's cipher is FIPS 197 decryption with the key |
| `EmiAesApi.AesRoundTrip` | emi_aes.c:42-416 | aes_decrypt under dkey undoes aes_encrypt under the ekey of the same schedule_key call, with nr = 10, 12, 14 |
| `EmiAesApi.FillKey` | emi_aes.c:419-433 | k[1] to k[i] are the key characters in reverse order, at most 31 of them, the other bytes keep their defaults |
| `EmiAesApi.EmiAesEncrypt` | emi_aes.c:418-442 | The output block is AES-128 encryption under the effective key; bytes after it stay; it returns 0 |
| `EmiAesApi.EmiAesDecrypt` | emi_aes.c:444-468 | The output block is AES-128 decryption under the effective key; bytes after it stay; it returns 0 |
| `EmiAesApi.EffectiveKeyIsWindow` | emi_aes.c:427-433 | Two key strings give the same AES key if and only if the last 15 of their first 31 characters agree, shorter strings being completed in front by default bytes |
| `EmiAesApi.EffectiveKeyBytes` | emi_aes.c:419-433 | Byte 0 of the AES key is 0x12 for every key string; bytes 1 to n are its characters backwards, and the rest defaults; of more than 31 characters the first 31 count |
| `EmiAesApi.EncryptAndDecrypt` | emi_aes.c:42-416 | schedule_key, aes_encrypt and aes_decrypt run one after the other on arrays, for 16, 24 and 32 key bytes, give the plaintext bytes back |
| `AesSBox.InverseUndoesForward` | include/emi_aes.h:98-163 | The Td4 entries invert the Te4 entries |
| `AesSBox.ForwardUndoesInverse` | include/emi_aes.h:233-298 | And the other way round |
| `AesSBox.TableIsSBox` | include/emi_aes.h:98-163 | Each Te4 entry is the affine transformation of the multiplicative inverse in GF(2^8), and that of 0 the affine transformation of 0 |
| `AesSBox.XPowers` | include/emi_aes.h:993-997 | The powers of x begin with 1, each is the product of the one before by x, the first eight have one bit each, and then come 1b and 36 |
| `AesSBox.PowersMultiply` | include/emi_aes.h:993-997 | Multiplying them in GF(2^8) adds their exponents, the second up to 7 |
| `AesSBox.AesSBoxBijective` | include/emi_aes.h:98-298 | The tables of the program meet the hypothesis of the round trip |
| `AesSBox.EmiAesRoundTrip` | emi_aes.c:418-468 | With these tables, for every key string and every 16 bytes: what emi_aes_decrypt writes, given what emi_aes_encrypt wrote, are those bytes |
| `AesVectors.KnownAnswer` | emi_aes.c:185-416 | The example of appendix B of FIPS 197: its key takes its plaintext to its ciphertext, byte for byte, and back |
| `AesVectors.Words192` | emi_aes.c:78-98 | Words 6 to 12 of the 192-bit key schedule of appendix A.2 |
| `AesVectors.Words256` | emi_aes.c:98-120 | Words 8 to 12 of the 256-bit key schedule of appendix A.3, the middle word included |
| `Lists.ListHead.constructor` | include/list.h:33-37 | A new head is an empty ring |
| `Lists.AddBetween` | include/list.h:39-47 | Between neighbours k and k + 1 of a ring, the ring gains the node at place k; next and prev stay mutually inverse |
| `Lists.Add` | include/list.h:48-51 | The ring gains the node at its start, also when it was empty |
| `Lists.AddTail` | include/list.h:53-56 | The ring gains the node at its end |
| `Lists.Del` | include/list.h:58-67 | The ring loses exactly this node |
| `Lists.Move` | include/list.h:77-81 | The node becomes the first, the others keep their order; it may be first already, or alone |
| `Lists.MoveTail` | include/list.h:83-88 | The node becomes the last, the others keep their order |
| `Lists.ForEach` | include/list.h:147-148 | Forward iteration visits the nodes of the ring in order and ends |
| `Lists.ForEachTail` | include/list.h:160-161 | Backward iteration visits the reverse |
| `MsgPool.MsgPool.constructor` | emi_shmem.c:47-60 | A ring of num free buffers with offsets bias + i * size modulo 2^32, i from 1 |
| `MsgPool.MsgPool.Obtain` | include/shmem.h:74-86 | The heap operation does what the sequence operation does and keeps the ring, its buffers and their links |
| `MsgPool.MsgPool.FindBackwards` | include/shmem.h:92-95 | The search from the tail finds the last buffer that carries the address |
| `MsgPool.MsgPool.Return` | include/shmem.h:89-104 | The heap operation does what the sequence operation does; no buffer is lost or gained |
| `PoolSpec.ObtainFailsWhenFull` | include/shmem.h:77-78 | Looking at the head alone is enough: obtain fails if and only if all buffers are busy, and then changes nothing |
| `PoolSpec.ObtainKeeps` | include/shmem.h:74-86 | Obtain keeps the pool consistent, hands out an address that is not outstanding, and adds only that |
| `PoolSpec.ReturnKeeps` | include/shmem.h:89-104 | Returning an outstanding address frees exactly its buffer, although freed buffers keep their addr |
| `PoolSpec.ReturnUnknown` | include/shmem.h:92-104 | An address that no buffer carries returns -1 and changes nothing |
| `PoolSpec.ReturnOfFreeMiscounts` | include/shmem.h:92-100 | Returning the address of a free buffer succeeds and makes the counter wrong |
| `PoolSpec.NullMiscountsFreshPool` | include/shmem.h:89-104 | The concrete case: NULL returned to a fresh pool is found in its last buffer, and the counter of busy buffers wraps |
| `PoolSpec.ReturnKeepsIff` | include/shmem.h:89-104 | A return keeps the pool consistent if and only if no free buffer carries the address |
| `PoolSpec.StepKeeps` | include/shmem.h:74-104 | Each obtain and each valid return keeps the consistency and the set of buffers |
| `PoolSpec.RunKeeps` | include/shmem.h:74-104 | After every history of obtain and valid return: free before busy, counter right, addresses distinct, the same buffers |
| `PoolSpec.FailedObtainUsedAll` | emi_core.c:346-348 | In the sequential pool: after a failed obtain every buffer has been handed out before |
| `PoolSpec.NullStaysUnknown` | emi_core.c:513-513 | In the sequential pool: from then on, along every history, returning NULL changes nothing; with overlapping threads it may free a slot in use (PoolOverlap) |
| `PoolRace.StepKeeps` | include/shmem.h:74-104 | Threads that overlap inside obtain and return, step by step, keep the nodes of the ring; a thread whose obtain failed returns NULL |
| `PoolRace.RunKeeps` | include/shmem.h:74-104 | So does every run of any number of threads |
| `PoolOwners.SoundIff` | include/shmem.h:74-104 | Along every run from an initial pool: no slot ever has two holders, and none that is held ever looks free, if and only if nobody holds the slot that is taken, nor the one that a return of NULL frees |
| `PoolOwners.DisorderBreaks` | include/shmem.h:79-98 | One step that takes what somebody holds gives it two holders, and a return of NULL that frees it leaves it looking free |
| `PoolOwners.CalmRunIsOrderly` | include/shmem.h:77-98 | It is enough to test busy again inside the lock, and to let a return of NULL clear only what is not busy |
| `PoolOwners.UndisturbedIsCalm` | include/shmem.h:74-86 | Without returns of NULL it is enough that nobody takes a slot between another thread's look at it and its take |
| `PoolOwners.SerialObtainIsSound` | emi_core.c:346-348 | A caller that serialises obtain up to the take and returns nothing after a failed one keeps every run sound |
| `PoolOrder.BusyHeadIsMoved` | include/shmem.h:76-98 | In calm runs, while a slot is free: a busy head was just moved there by a return that has not cleared it, and the head of such a return is busy |
| `PoolOrder.ObtainFailsIff` | include/shmem.h:76-98 | In undisturbed runs without returns of NULL, while a slot is free: an obtain that looks now fails if and only if the head is in the hands of a return, between its move and its clearing of busy |
| `PoolSearch.OthersStep` | include/shmem.h:92-100 | A step of another thread, a return of NULL included, takes a slot out of reach of the backward search for it if and only if it moves the node under the cursor to the front, or takes the slot itself |
| `PoolSearch.BackStaysAhead` | include/shmem.h:92-95 | The search itself does not step over its slot |
| `PoolSearch.SparedSearchFinds` | include/shmem.h:92-100 | Along every run in which no other thread does that, the search never ends without its slot |
| `PoolSearch.FindsIffAhead` | include/shmem.h:89-104 | Left alone from any point, a search finds its slot if and only if it is still ahead of the cursor |
| `PoolSearch.SerialReturnsLoseNothing` | include/shmem.h:89-104 | In orderly runs whose searches do not overlap a slot is busy if and only if somebody holds it: none is lost |
| `PoolLock.FailMeansFull` | include/shmem.h:77-78 | Under one lock around all of obtain and all of return, an obtain fails only when every slot is busy and has been handed out |
| `PoolLock.LockIsEnough` | include/shmem.h:74-104 | Under that lock every run is sound, a slot is busy if and only if somebody holds it, and an obtain fails if and only if all are busy |
| `PoolEnds.StepLowers` | include/shmem.h:74-104 | Every step of a thread lowers a measure, also when others move nodes under the cursor of a search |
| `PoolEnds.RunIsShort` | include/shmem.h:74-104 | So no run of the threads is longer than that measure: every search ends |
| `PoolOverlap.BothTake` | include/shmem.h:76-82 | From an initial pool: two threads test busy before either locks, and both get the slot |
| `PoolOverlap.FailsWithFreeSlot` | include/shmem.h:76-98 | From an initial pool: an obtain fails although a slot is free, between the move and the clearing of busy in a return |
| `PoolOverlap.NullFreesHeldSlot` | emi_core.c:346-513 | Although every obtain is a whole: after such a failure the return of NULL finds a slot that was never handed out, and frees it when another thread holds it |
| `PoolOverlap.NullGivesTwoHolders` | emi_core.c:346-513 | The next obtain gives that slot a second holder |
| `PoolOverlap.NullFreesTakenSlot` | include/shmem.h:81-98 | In a pool with one slot: the return of NULL frees it between its take and the write of addr |
| `PoolOverlap.ReturnMisses` | include/shmem.h:92-104 | From an initial pool: two overlapping returns, and the search of one comes back to the head without its slot, which stays busy |
| `Layout.SlotsAreDisjoint` | emi_shmem.c:51-57 | Byte ranges of slots are disjoint from each other and from the index cell of every pid below pid_max |
| `Layout.SlotRoom` | include/shmem.h:53-57 | Data behind the header stays out of the next slot if and only if it has at most the default size |
| `Layout.InitialConsistent` | emi_shmem.c:47-60 | The initial pool is consistent |
| `Layout.ObtainedNumberIsNotZero` | emi_core.c:418-418 | The offset recovered for an obtained slot is never 0, the acknowledged value, along every history |
| `Layout.NumberFindsSlot` | emi_if.c:214-216 | Along every valid history, base plus the number that is sent is the obtained address, and the number is the place of one of the slots, so that a receiver finds it in its own mapping |
| `Layout.SlotInsideSegment` | emi_core.c:122-123 | A slot ends inside the segment if and only if the configured data size leaves room for its number |
| `Layout.LastSlotOutsideSegment` | emi_core.c:122-123 | With the default data size that is every slot but the last |
| `Registry.BucketExists` | include/msg_table.h:59-61 | The hash is at most 4095, and the 4095 buckets serve every message except those that end in fff |
| `Registry.SameBucketIff` | include/msg_table.h:59-61 | Two messages share a bucket if and only if they agree in the low twelve bits |
| `Registry.InsertRefines` | include/msg_table.h:144-153 | Insert is insertion into a set of pairs: 1 exactly for a pair that was there, 0 adds it, chains stay in their bucket and free of repeats |
| `Registry.DeleteRefines` | include/msg_table.h:178-197 | Delete is removal from the set: 0 exactly for a pair that was there |
| `Registry.RunRefines` | include/msg_table.h:129-197 | Every history gives the pairs and the return codes that a set gives |
| `MsgTable.MsgTable.constructor` | emi_core.c:113-118 | All buckets empty |
| `MsgTable.MsgTable.Contains` | include/msg_table.h:144-149 | The scan finds the pair if and only if its chain has it |
| `MsgTable.MsgTable.Insert` | include/msg_table.h:129-153 | The heap chains do what the sequence of chains does, and stay acyclic and disjoint |
| `MsgTable.MsgTable.Delete` | include/msg_table.h:178-197 | Unlinking on the heap, first node or later, does what the sequence of chains does |
| `MsgTable.MsgTable.Search` | include/msg_table.h:77-93 | It returns the first node for the message at place num or later, and leaves num as it is on a hit |
| `MsgTable.MsgTable.SearchAll` | emi_core.c:425-431 | The repeated search ends and goes through exactly the hits |
| `MsgTable.MsgTable.SweepAll` | emi_core.c:425-469 | The loop with removals after failed kills, on the heap: it signals what the sequence function Swept says, leaves of its chain what Survivors says, and no other chain changes |
| `Registry.DeliveryCoverage` | emi_core.c:425-431 | If no kill fails: the loop hits 1 + (place of the last match) times, or never, and reaches every registration of the message, in chain order |
| `Registry.DeliveryOnceIff` | include/msg_table.h:84-90 | Each registration is reached once if and only if all entries up to the last match are for the message |
| `Sweep.LiveBehindDead` | emi_core.c:452-469 | With dead processes: in the chain of a dead and a live process, the live one never gets the message |
| `Sweep.MetAfterRemoval` | emi_core.c:465-469 | A removal costs the entries behind it one place of slack, and the next one its turn if there is none |
| `Sweep.SweptExactly` | emi_core.c:425-469 | The loop signals exactly the entries that one pass over the chain from left to right finds alive and with slack |
| `Sweep.SignalledIffSlack` | emi_core.c:425-469 | A live registration in any bucket is signalled if and only if there is slack at its place: other messages' entries give one each, removals cost one, live hits and skips leave none |
| `Sweep.SignalledIffEven` | emi_core.c:425-469 | In a bucket of one message: if and only if the run of dead entries directly before it has even length |
| `Sweep.SurvivorsExactly` | emi_core.c:465-469 | Exactly the dead entries that the loop comes upon are removed, whatever the chain |
| `Sweep.RemovedIffSlack` | emi_core.c:465-469 | A registration is removed if and only if it is one for the message, its process is dead, and there is slack at its place |
| `Sweep.SweptAlive` | emi_core.c:425-431 | If no registration for the message is dead, the loop signals the hits of the plain loop |
| `DeliveryInvariant.WorkKeepsCells` | emi_core.c:448-463 | Worker steps keep the cells: only the lock holder's target can be busy, and it is as the holder expects |
| `DeliveryInvariant.WorkKeepsOwnCount` | emi_core.c:452-476 | A worker's own step keeps count equal to what is owed, modulo 2^32: handlers that serve the slot, plus a signal not yet heard, minus a count++ to come |
| `DeliveryInvariant.WorkKeepsOthersCount` | emi_core.c:425-513 | Another worker's step does not disturb that |
| `DeliveryInvariant.WorkKeepsOwnersApart` | emi_core.c:346-513 | If no worker is given a slot that another one has, no slot gets two owners |
| `DeliveryInvariant.WorkKeepsServing` | emi_core.c:474-476 | A worker's step leaves every slot that a handler serves in the hands of a worker that is delivering it |
| `DeliveryInvariant.HandleHears` | emi_if.c:213-219 | The handler that starts on a slot is the one the owner of the slot waits for |
| `DeliveryInvariant.HandleKeepsCounted` | emi_if.c:214-250 | Handler steps, at any moment, keep count equal to what is owed |
| `DeliveryInvariant.HandleKeepsCells` | emi_if.c:213-219 | Handler steps keep the cells |
| `DeliveryInvariant.HandleKeepsHistory` | emi_if.c:213-219 | Handler steps keep the correspondence of offsets sent and read |
| `DeliveryInvariant.StepKeeps` | emi_core.c:339-517 | Every step of every thread and process keeps the lock, cell, target, table and history parts of the invariant, whoever owns which slot |
| `DeliveryInvariant.RunKeeps` | emi_core.c:339-517 | Every interleaving does |
| `DeliveryInvariant.StepKeepsApart` | emi_core.c:339-517 | Every orderly step keeps the slots apart and the counts right |
| `DeliveryInvariant.RunKeepsApart` | emi_core.c:339-517 | Every orderly interleaving does |
| `DeliverySafety.OwnersApartIff` | emi_core.c:346-513 | Along every run, no slot ever has two owners if and only if no worker is given a slot that another one has |
| `DeliverySafety.OneCellUnderLock` | emi_core.c:446-463 | In every reachable state at most one index cell is set, only while the lock is held, and it holds the slot of the lock holder |
| `DeliverySafety.SignalsDoNotMerge` | emi_core.c:451-463 | kill finds no signal pending at its target: all that was sent to it has been read |
| `DeliverySafety.SignalsAreHeardOnce` | emi_if.c:213-219 | A process reads the offsets of its signals, each once and in order; only the last may be outstanding, still in its cell |
| `DeliverySafety.RegistrationsFollow` | emi_core.c:364-469 | In every reachable state no pair is registered twice; a registration adds its pair, a failed kill removes the pair of its target, and no other step changes the set |
| `DeliverySafety.SlotInUseIsDelivered` | emi_if.c:214-250 | In orderly runs, a slot that some process has still to read or count down belongs to a worker in delivery |
| `DeliverySafety.SlotSafeAfterDrain` | emi_core.c:474-513 | In orderly runs, when a worker replies from its slot or returns it, no process uses the slot |
| `DeliverySafety.CountTellsUse` | emi_core.c:452-476 | In orderly runs, during delivery count is zero if and only if no process uses the slot; between kill and count++ it is 2^32 - 1 if and only if so |
| `DeliverySafety.HandlerCountsDownOnce` | emi_if.c:213-250 | A handler run clears its cell and counts down, once, the slot it read there, and changes nothing else |
| `DeliverySafety.FastHandlerWraps` | emi_core.c:452-457 | A handler that overtakes count++ wraps the field, and count++ restores it |
| `DeliveryProgress.BusySteps` | emi_core.c:425-476 | As long as a worker has a slot or a handler runs, a step is possible that does not wait for the pool |
| `DeliveryProgress.NoDeadlock` | emi_core.c:425-476 | In orderly runs an orderly step other than spinning is possible if and only if some request or handler is unfinished |
| `DeliveryProgress.FinishedIsClean` | emi_core.c:511-517 | When all requests are finished the lock is free, the cells are clear, and everything sent has been read |
| `DeliveryProgress.StepLowers` | emi_core.c:425-476 | Every step of a worker or handler lowers a measure, also when entries are registered or removed on the way |
| `DeliveryProgress.EveryRunEnds` | emi_core.c:339-517 | From any state, without further requests, every run has a bounded number of steps, orderly or not |
| `DeliveryProgress.EveryRunFinishes` | emi_core.c:339-517 | An orderly run that cannot go on in an orderly way has finished all requests, and the other way round |
| `DeliveryReceipt.RunTallies` | emi_core.c:448-463 | In orderly runs, as long as a worker has its slot, each process is sent the slot as often as this worker signals it |
| `DeliveryReceipt.ToldHaveHeard` | emi_core.c:474-509 | When a worker replies, each process has read the slot of this request as often as the worker has signalled it, and none uses the slot any more |
| `Coverage.EveryRegistrationIsSignalled` | emi_core.c:425-463 | While nothing is removed from its bucket, registrations anywhere allowed, a worker that leaves its loop has signalled every process registered for the message when it started, and none that is not registered by now |
| `Coverage.RequestIsDelivered` | emi_core.c:420-431 | A request for a message, from its arrival: under the same condition every process registered for that message by then is signalled, and none that is not registered for it |
| `Coverage.RegisteredIsSignalled` | emi_core.c:364-431 | From the registration of a process to a later request for the same message: as long as nothing is removed from the bucket, that request signals it |
| `Coverage.SweptAreSignalled` | emi_core.c:425-469 | With a fixed set of dead processes, and the bucket changed by the worker's own removals only, the worker signals what Swept says, in order |
| `Coverage.RequestIsSwept` | emi_core.c:420-469 | The same for a request, from its arrival, by the chain of its message |
| `Coverage.LiveIsSignalledIff` | emi_core.c:425-469 | So a live registration is signalled if and only if there is slack at its place in the chain |
| `Reach.RemovalIff` | emi_core.c:465-469 | A removal by any worker leaves a registration ahead of a worker's search unless it takes an earlier entry while the registration stands where the next search begins, and only unless |
| `Reach.LiveIsSignalled` | emi_core.c:425-469 | Along every run, registrations and removals in the bucket included: a live registration that is not removed, and from which no removal takes that place, is signalled |
| `Reach.RequestSignalsLive` | emi_core.c:420-469 | The same for a request, from its arrival, and a process that is registered for its message by then |
| `Reach.LiveIsSignalledIff` | emi_core.c:425-469 | If nothing is registered in the bucket meanwhile: it is signalled if and only if no such removal, by this worker or another one, happens while it waits |
| `Coverage.SignalledOnceIff` | include/msg_table.h:84-90 | No process is signalled twice for the message if and only if no other message's entry comes before its last one in the bucket |
| `Request.LiveTurn` | emi_core.c:425-463 | One turn of the loop on a live process, with its handler: it is told and reads the slot once, cell, lock and count are as before, and nothing else has changed |
| `Request.DeadTurn` | emi_core.c:425-469 | One turn on a dead process: its registration is removed, and nothing else has changed |
| `Request.RequestRuns` | emi_core.c:339-517 | A request can run from its arrival to the return of its slot, for every set of dead processes: it signals the pids of Swept, each process reads the slot as often, the chain is what Survivors leaves, and nothing else has changed |
| `System.Projects` | emi_core.c:339-517 | A run of workers on the pool of overlapping threads is a run of the delivery protocol and a run of the pool |
| `System.OrderlySystem` | emi_core.c:346-513 | If it is orderly for the pool, it is orderly for the workers: all that is said of orderly runs of the delivery protocol holds |
| `SystemSafety.OwnedIsBusy` | emi_core.c:346-513 | In orderly runs the slot of a worker is busy as long as the worker has it, and no other worker has it |
| `SystemSafety.SlotInUseIsBusy` | emi_if.c:214-250 | In orderly runs a slot that some process has still to read or count down is never free, and has one owner, which is delivering it |
| `SystemSafety.NoDeadlock` | emi_core.c:339-517 | In orderly runs of workers and pool together an orderly step is possible if and only if some request, handler or return is unfinished |
| `SystemSafety.EveryRunEnds` | emi_core.c:339-517 | Without further requests every run of workers and pool has a bounded number of steps, orderly or not |
| `SystemSafety.FinishedPoolIsFree` | emi_core.c:511-517 | After an orderly run whose searches do not overlap, when all is finished every slot is free |
| `SystemSafety.OneLockSuffices` | include/shmem.h:74-104 | With one lock around all of obtain and all of return every run is orderly, a request is refused only when every slot is busy, and when all is finished every slot is free |
| `SystemSafety.OneLockNoDeadlock` | include/shmem.h:74-104 | And that lock brings nothing to a halt |
| `SystemOverlap.EveryPoolRunHappens` | emi_core.c:339-517 | Every run of the pool from an initial state is what the pool sees of some run of workers |
| `SystemOverlap.TwoWorkersOwnASlot` | emi_core.c:346-513 | So, although every obtain is a whole, two workers may come to own one slot |
| `Reply.FuncStereotype` | emi_if.c:222-247 | The callbacks for the message run in list order on what the one before left, only the first in return mode, where its return value sets or clears the result bit |
| `Reply.CallbackRuns` | emi_if.c:225-240 | Outside of return mode a callback for the message runs on the slot, and others do not |
| `Reply.CallbacksRunInOrder` | emi_if.c:222-246 | Outside of return mode all callbacks run, each on what the one before has left |
| `Reply.PrepareReturnData` | emi_if.c:396-402 | -1 and no change beyond the limit, else 0 with size and bytes in place |
| `Reply.ReceiveRequest` | emi_core.c:354-408 | The slot holds the request; data is read only for a request that is no registration, with data below the limit |
| `Reply.DataArrives` | emi_core.c:401-405 | The data of a request is in the slot byte for byte, with its header, and what lies behind it stays |
| `Reply.HeaderArrives` | emi_core.c:401-408 | A registration, a command, or data of the limit or more leave the data of the slot as it was |
| `Reply.WriteAnswer` | emi_core.c:478-509 | The answer by mode: none, a bare success, or header with settled result bit and the data that goes with it |
| `Reply.Serve` | emi_core.c:354-509 | The answer to a request through receive, callbacks and reply, registrations included |
| `Reply.AwaitAnswer` | emi_if.c:302-338 | Return value and message of the sender for any answer, a short read included |
| `Reply.Send` | emi_if.c:263-338 | emi_msg_send against that worker: return value and message are those of the exchange, also when there is no slot |
| `Reply.NonblockSucceeds` | emi_if.c:290-299 | A send that does not wait returns 0 and leaves its message alone, with a slot or without |
| `Reply.UntypedFails` | emi_if.c:266-269 | A message that is neither data nor command returns -1 and stays as it is |
| `Reply.RegistrationSucceeds` | emi_core.c:383-388 | A registration in return mode returns 0 and leaves the result bit as its only flag |
| `Reply.EchoReturnsData` | emi_if.c:317-330 | With a callback that leaves the slot alone, a data request gets its own data back |
| `Reply.CallbackDecides` | emi_if.c:317-335 | In return mode, if a callback runs and leaves the modes alone, the send returns 0 if and only if it returned 0 and left a size within the limit; the sender then has its size, and its bytes as far as its buffer goes, else its data is unchanged; what comes of other modes is stated too |
| `Reply.SenderDecides` | emi_core.c:489-495 | If none runs, it returns 0 if and only if the sender itself had set the result bit and kept the limit |
| `Reply.NoSlotReturnsOwnBit` | emi_if.c:317-335 | Without a slot, and so without any worker, the send returns 0 if and only if the sender had set the result bit, and leaves its message as it is |
| `Reply.ReturnsZeroIff` | emi_core.c:487-506 | A request without the result bit returns 0 if and only if its callback ran, returned 0 and kept the limit |
| `Reply.ReturnsZeroUnheard` | emi_core.c:489-495 | The concrete case: a request with the result bit set returns 0 without a receiver, with a slot or without one |
| `Reply.AnswerReachesSender` | emi_if.c:396-402 | A callback that answers with emi_msg_prepare_return_data: 0 if and only if the bytes are within the limit, and then the sender has all of them if and only if its buffer holds them |
| `Reply.CutAnswer` | emi_if.c:317-331 | If the connection ends early: with the header read, the return value is the one of the full answer, and the data is the returned one only if nothing was cut; without it, the sender's own bit comes back |
| `Reply.BufferSufficesIff` | emi_if.c:317-331 | A buffer of the sender holds the returned data of every callback if and only if it holds the configured limit |
| `Reply.SlotSufficesIff` | emi_core.c:403-503 | Data that is read stays in the room of a slot if and only if the configured limit is at most one more than it; data that is sent back, if and only if the limit is at most the room |
| `Reply.BlockModeReturnsZeroIff` | emi_if.c:302-315 | In block mode callbacks that leave the modes alone do not matter: 0 if and only if a slot was found and the worker answers |

## Left out

- Sockets, `fork`, signal installation, the lock file, `/proc`, `shmget` and `shmat`, `main`, debug printing: foreign calls.
- `get_config`, the retries of `emi_connect`, the assembly spinlocks (`SYSTEM_LOCK` selects the pthread mutex; a lock is an owner here).
- `emi_msg_encode_aes` and `emi_msg_decode_aes`: the mask index leaves its array, and encoding overwrites the last 16 data bytes, so they do not round-trip.
- `__emi_obtain_consecutive_space` (unused; its loop does not run) and `emi_hsearch` (debugging only; always NULL).
- The registration branch that rewrites `pid` (`emi_core.c:374-381`): no client sets its flag, because of the `memset` at `emi_if.c:464`.
- The loops that use a node after freeing it: the error path of `emi_init_space` and `emi_msg_unregister` with a NULL callback.
- `emi_msg_unregister` and the registration of callbacks: easy members.
- The literal entries of the tables other than Te4 and Td4: their definitions from the S-box stand for them.
- A process that dies after a successful kill and before its count-down: the worker then spins forever, and nothing is claimed.
- A torn `count++` or `count--`, and the counter of busy slots when two threads change it at once: nothing reads that counter.
- The single pointer writes of a locked list operation, which a search or a look at the head without the lock may see half done.
- What becomes of handlers, counts and replies after a slot has got two owners: only that it does, and exactly when.
- Several receivers of one request in return mode, whose handlers may write the same slot at once.
- `list_replace`, `list_is_last`, `list_is_singular`: easy members.
- PoolSpec.FailedObtainUsedAll: holds of the sequential pool; overlapping threads may fail earlier (PoolOverlap.FailsWithFreeSlot).
- PoolSpec.NullStaysUnknown: holds of the sequential pool, for the same reason.
- PoolOrder.ObtainFailsIff: stated without returns of NULL, because one that moves a busy slot to the front makes obtain fail too; PoolOrder.BusyHeadIsMoved includes it.
- MsgPool.MsgPool.constructor: the failure of malloc is not modelled, because its clean-up uses freed nodes.
- Layout.LastSlotOutsideSegment: containment of the last slot is not claimed, because it does not hold.
- Registry.DeliveryCoverage: stated for loops without failed kills; module Sweep states the others, in which the entry behind a removed one may be skipped.
- Coverage.EveryRegistrationIsSignalled: stated while no entry is removed from the bucket, because a removal may skip the next one (module Reach says when); a registration may not, as it pushes the others back.
- Coverage.SweptAreSignalled: stated for a bucket that only the worker itself changes; module Reach states what holds in every run.
- Coverage.LiveIsSignalledIff: the same; Reach.LiveIsSignalledIff allows removals by others, Reach.LiveIsSignalled registrations too.
- Reply.Serve: a configured limit that reaches past the end of the segment is not covered, because there is no memory there.
- Reply.Send: the same.
- Reply.FuncStereotype: callbacks do not change `count`, which only the delivery model has.
