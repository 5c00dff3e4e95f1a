# Verified models of the Telix C runtime, two host tools and five kernel structures

Telix is a microkernel system. This project models the parts of it where a small mistake is
hard to see and expensive, states what each of them is for, and proves it in Dafny for every
input, every run or every interleaving.

| file | models |
|---|---|
| `Words.dfy` | machine words, bit operations, byte encodings |
| `Limbs.dfy` | five-limb arithmetic modulo b^5 - c: Horner products, carry chains, congruences |
| `Fermat.dfy` | Fermat's little theorem, from the binomial theorem |
| `Primes.dfy` | Pocklington's criterion for primality |
| `Prime25519.dfy` | a certificate that 2^255 - 19 is prime |
| `Poly1305.dfy` | the one-time authenticator in 26-bit limbs (section 2.5 of RFC 7539) |
| `Aead.dfy` | ChaCha20 and the AEAD built from it and Poly1305 (section 2.8 of RFC 7539) |
| `Curve25519.dfy` | GF(2^255 - 19) in 51-bit limbs: multiplication, inversion, byte codec |
| `Pthread.dfy` | futex mutex, condition variable and once, as state machines over any number of threads |
| `SshTransport.dfy` | the SSH packet layer, plain and encrypted (section 6 of RFC 4253) |
| `SshChannel.dfy` | SSH channel windows, one endpoint and two (section 5.2 of RFC 4254) |
| `SshKeys.dfy` | SSH key derivation and mpint encoding (section 7.2 of RFC 4253, section 5 of RFC 4251) |
| `Sha256.dfy` | streaming SHA-256 (section 5.1.1 of FIPS 180-4) |
| `Crc32c.dfy` | the table-driven CRC-32C of the SCTP echo server (Appendix B of RFC 4960) |
| `Regex.dfy` | the backtracking regular-expression matcher |
| `Malloc.dfy` | the size-class allocator |
| `Wayland.dfy` | the compositor's object table with shared pools, and its receive loop |
| `TimeUtil.dfy` | calendar conversion |
| `Heap4.dfy` | the scheduler's 4-ary run-queue heap |
| `Cdt.dfy` | the capability derivation tree |
| `KernelPark.dfy` | the kernel's park and wake handshake |
| `KernelRcu.dfy` | the kernel's read-copy-update |
| `VmaTree.dfy` | the B+ tree of an address space's mappings |

Code that changes state is modelled by classes, arrays and loops, and proved against
specification functions; the properties are proved about those functions. Concurrent code is
a state machine whose steps are single atomic accesses or system calls; runs are sequences of
states.  Widths, wrap-around and truncating division are written out.

Where the code does not do what it is meant to do, the code is modelled as it is, and the
exact condition under which it does is proved, with a concrete failing input:

- `fe_sub` adds a bias that is not a multiple of the prime, so it never represents the
  difference (`Curve25519.SubIsNeverDifference`). The comment at
  musl-telix/src/crypto_curve25519.c:69 says otherwise.
- `fe_tobytes` is canonical exactly when value mod p is at least 19 (value / p - 1), as it is
  below 2p and so for everything `fe_mul` returns (`Curve25519.CanonicalExactly`).
- `encode_mpint` is the shortest encoding except for zero (`SshKeys.MpintMeaning`).
- `ssh_get_string` answers as the packet format does exactly for lengths below 2^32 - 9; it takes
  the nine above as strings of negative length (`SshChannel.GetStringExactly`,
  `SshChannel.AllOnesLengthIsMisread`).
- `ssh_channel_send_data` finds a proper packet size exactly when the limit the peer has named is
  a positive int, or is larger and the window is small (`SshChannel.Session.NextChunk`,
  `SshChannel.ImproperSizes`); under a limit of 0 it sends empty packets until the transport
  fails (`SshChannel.Session.ZeroLimitTurns`).
- the checksum of a packet misses an error exactly when what the error does to the field is what
  it does to the sum (`Crc32c.EscapesExactly`): no burst of 32 bits within the field or outside
  it (`Crc32c.PacketBurstDetected`), but one across its edge (`Crc32c.EdgeBurstEscapes`).
- `fe_mul_scalar` represents the product exactly when the lowest limb and 19 times the last
  carry fit a word together, as they do for every scalar below 2^56 (`Curve25519.FeMulScalar`).
- a condition variable misses a completed broadcast exactly when the wait is made after 2^32 or
  more increments since the capture, a multiple of 2^32 (`CondVar.WaitSleepsExactly`,
  `CondVar.MissedExactly`); the wake of a signal can pass over every sleeper that was waiting
  when the counter was raised exactly when another has begun to wait since
  (`CondVar.SignalStolenExactly`, `CondVar.StolenSignal`).
- `regexec` never tries the empty suffix, and misses exactly the matches of `Regex.Missed`; the
  end it reports is the end of a match exactly when `regexec` finds the pattern with a dollar
  appended at the same offset (`Regex.EndIsRight`, `Regex.EndIsTooFar`).
- `malloc` gives a block smaller than the request exactly above 256 KiB less the header
  (`Malloc.RoomCovers`, `Malloc.LargestRequestIsShort`).
- a buffer the compositor accepts lies inside its pool exactly when its width in bytes and its
  end fit an int (`WaylandObjects.BuffersInsideExactly`).
- `gmtime_r` cuts the day count to an int and is right exactly when it fits, with the wrong
  weekday exactly on the last four days (`TimeUtil.Tm.GmtimeR`,
  `TimeUtil.LastDayHasWrongWeekday`); `mktime` is wrong exactly before 1970 and for negative
  months (`TimeUtil.Tm.Mktime`, `TimeUtil.TwoThatDoNotComeBack`).
- `pick_eligible` picks an earliest eligible thread exactly when some eligible deadline is below
  2^64 - 1 or the root of the heap is eligible (`Heap4.RunQueue.PickEligible`); otherwise any
  eligible thread is passed over (`Heap4.LastDeadlineIsPassedOver`). The comment at
  kernel/src/sched/heap.rs:62-66 promises every tied thread a turn within as many picks as there
  are threads; that holds exactly when the origin starts at the last position, and one pick more
  is always enough (`Heap4.NobodyStarves`, `Heap4.LenPicksMissOne`).
- the park handshake can let a thread be dispatched while it is still on its kernel stack
  exactly when a claim of an earlier round is outstanding at the moment it commits
  (`KernelPark.CommitBreaksExactly`).
- a direct hand-off swaps the word at Committed first and at Enqueued second: it is lost exactly
  when the thread commits between the two and nobody else wakes it
  (`KernelPark.HandOffLostExactly`, `KernelPark.CommitsBetween`, `KernelPark.HandOffIsLost`). The
  comment at kernel/src/syscall/handlers.rs:944 says that the second swap prevents the park.
- a deferred free compares one CPU's counter with the counters of all: an object can be freed
  under a reader exactly when the reader's CPU was past the object's epoch when it was removed
  (`KernelRcu.FreedUnderReaderExactly`). The comment at kernel/src/sync/rcu.rs:13-16 promises
  a full grace period.
- the mapping lookup misses a mapping exactly when it is not in the leaf it searches and the
  leaf before that has been emptied (`VmaTree.LookupExactly`), which sixty-three calls can bring
  about (`VmaTree.MissedRun`) and calls that only map cannot (`VmaTree.MapsOnlyFindsAll`).

## Model

| member | source | states |
|---|---|---|
| `Poly1305.MacIsPolynomial` | musl-telix/src/crypto_chacha20.c:159-179 | the tag is the sum of the message blocks times powers of the clamped r, reduced modulo 2^130 - 5, plus s, modulo 2^128; the specification the code is proved against says what the standard says |
| `Poly1305.SlicesValue` | musl-telix/src/crypto_chacha20.c:91-95 | cutting four 32-bit words into five 26-bit limbs loses no bit |
| `Poly1305.ClampValue` | musl-telix/src/crypto_chacha20.c:71-76 | masking limb by limb clamps the 128-bit key half as one number |
| `Poly1305.AddBlockValue` | musl-telix/src/crypto_chacha20.c:91-96 | adding a block to lazily reduced limbs adds its value and the high bit, and no 32-bit limb overflows |
| `Poly1305.ProductsFit` | musl-telix/src/crypto_chacha20.c:98-102 | the five 64-bit sums of products stay below the bound under which no carry is truncated |
| `Poly1305.CarryChainValue` | musl-telix/src/crypto_chacha20.c:104-110 | the carry chain keeps the value modulo the prime and restores the limb bounds, limb 1 being the only one above 26 bits |
| `Poly1305.MultiplyValue` | musl-telix/src/crypto_chacha20.c:98-110 | the limb product represents the product modulo 2^130 - 5 and is fit for the next block |
| `Poly1305.BlockStep` | musl-telix/src/crypto_chacha20.c:90-113 | one turn of the loop maps h to (h + block + high bit) r modulo the prime |
| `Poly1305.FullCarryValue` | musl-telix/src/crypto_chacha20.c:122-127 | the closing carries bring every limb below 2^26 without changing the value modulo the prime |
| `Poly1305.SelectValue` | musl-telix/src/crypto_chacha20.c:129-141 | the branch-free choice between h and h - p is the remainder of h modulo p |
| `Poly1305.PackValue` | musl-telix/src/crypto_chacha20.c:145-148 | packing limbs into words is reduction modulo 2^128 |
| `Poly1305.AddPadValue` | musl-telix/src/crypto_chacha20.c:150-153 | the word-wise addition with 64-bit carries is addition modulo 2^128 |
| `Poly1305.FinishCorrect` | musl-telix/src/crypto_chacha20.c:117-157 | from any limbs the block loop can leave, the finishing code writes the 16 bytes of (h mod p) + s |
| `Poly1305.RoundDown` | musl-telix/src/crypto_chacha20.c:165-165 | len & ~15 is len rounded down to a multiple of 16 |
| `Poly1305.State.constructor` | musl-telix/src/crypto_chacha20.c:69-83 | the state starts at accumulator 0 with r clamped and s loaded |
| `Poly1305.State.Blocks` | musl-telix/src/crypto_chacha20.c:85-115 | any number of blocks are absorbed modulo the prime; the limb invariant and r are kept |
| `Poly1305.State.Finish` | musl-telix/src/crypto_chacha20.c:117-157 | the tag of the absorbed accumulator |
| `Poly1305.ComputeMac` | musl-telix/src/crypto_chacha20.c:159-179 | for every key and every message, of any length, the code returns the specified tag |
| `Poly1305.AbsorbConcat` | musl-telix/src/crypto_chacha20.c:90-113 | absorbing in two calls at a block boundary is absorbing once |
| `ChaCha20.Encrypt` | musl-telix/src/crypto_chacha20.c:49-58 | the in-place loop xors byte i with byte i mod 64 of keystream block counter + i / 64, with the counter wrapping at 32 bits, and leaves the rest of the buffer alone |
| `ChaCha20.CryptInvolution` | musl-telix/src/crypto_chacha20.c:49-58 | applying the cipher twice with the same parameters gives the input back |
| `ChaCha20.Mix` | musl-telix/src/crypto_chacha20.c:9-13 | the quarter round of section 2.1 of RFC 7539, rotations by shifts and or |
| `ChaCha20.TwoRounds` | musl-telix/src/crypto_chacha20.c:39-44 | eight quarter rounds in place are a round on the columns and one on the diagonals of the state as a matrix |
| `ChaCha20.ConstantsAreText` | musl-telix/src/crypto_chacha20.c:30-31 | the four constant words are the bytes of the text "expand 32-byte k" |
| `ChaCha20.ComputeBlock` | musl-telix/src/crypto_chacha20.c:27-47 | the block function, loops and arrays as written, computes the block of section 2.3 of RFC 7539 |
| `Aead.AbsorbPadded` | musl-telix/src/crypto_chacha20.c:210-228 | absorbing full blocks and a zero-filled last block is absorbing the data padded to 16 |
| `Aead.ComputeTag` | musl-telix/src/crypto_chacha20.c:205-236 | the incrementally built tag is one Poly1305 tag over aad, pad, ciphertext, pad and both lengths |
| `Aead.Seal` | musl-telix/src/crypto_chacha20.c:194-239 | ciphertext and tag are those of the one-shot definition |
| `Aead.SameTag` | musl-telix/src/crypto_chacha20.c:277-280 | or-ing the xor of all byte pairs is zero exactly for equal tags |
| `Aead.Open` | musl-telix/src/crypto_chacha20.c:241-285 | returns 0 with the plaintext exactly when the tag is the recomputed one; otherwise -1 with the output untouched |
| `Aead.OpenSeal` | musl-telix/src/crypto_chacha20.c:194-285 | opening what was sealed returns the plaintext, for every length, and every other tag is refused |
| `Aead.OneKeyStream` | musl-telix/src/crypto_chacha20.c:194-203 | one-time key and ciphertext come from one key stream: its first 32 bytes are the one-time key, and the text is encrypted from its second block on |
| `Limbs.ProductExact` | musl-telix/src/crypto_curve25519.c:83-87 | the folded five-by-five product differs from the product of the values by an exact multiple of b^5 - c |
| `Limbs.ChainValue` | musl-telix/src/crypto_curve25519.c:89-96 | a carry chain with the top carry folded back by c keeps the value modulo b^5 - c |
| `Curve25519.MulValue` | musl-telix/src/crypto_curve25519.c:77-97 | on limbs below 2^54 no 64-bit or 128-bit temporary loses a bit; the result represents the product modulo 2^255 - 19 with limbs below 2^51 + 2^13 |
| `Curve25519.FeMul` | musl-telix/src/crypto_curve25519.c:77-97 | the same in memory, with the output array allowed to be either input or both |
| `Curve25519.TightIsSmall` | musl-telix/src/crypto_curve25519.c:77-97 | every value with the limb bounds fe_mul returns is below 2p, and can be multiplied again |
| `Curve25519.FeSq` | musl-telix/src/crypto_curve25519.c:99-99 | squaring |
| `Curve25519.SubIsNeverDifference` | musl-telix/src/crypto_curve25519.c:68-75 | for all limbs below 2^54, underflowing or not, the result is never congruent to f - g |
| `Curve25519.FeMulScalar` | musl-telix/src/crypto_curve25519.c:101-110 | for every 64-bit n: limbs fit for reuse, which represent the product modulo the prime if and only if the lowest limb of the product and 19 times its last carry stay below 2^64; so for every n below 2^56 |
| `Curve25519.HugeScalarWraps` | musl-telix/src/crypto_curve25519.c:101-110 | a scalar and limbs for which they do not |
| `Curve25519.ReduceValue` | musl-telix/src/crypto_curve25519.c:30-43 | the branch-free quotient is (value + 19) / 2^255, and the reduction subtracts the prime that often |
| `Curve25519.CanonicalExactly` | musl-telix/src/crypto_curve25519.c:30-43 | the reduced value is the least residue if and only if value mod p is at least 19 (value / p - 1), so for every value below 2p |
| `Curve25519.TwicePrimeIsNotCanonical` | musl-telix/src/crypto_curve25519.c:30-43 | twice the prime itself encodes as the prime |
| `Curve25519.PackValue` | musl-telix/src/crypto_curve25519.c:45-54 | packing five limbs into four words keeps the value |
| `Curve25519.StoreWord` | musl-telix/src/crypto_curve25519.c:48-48 | the byte loop writes a word little-endian |
| `Curve25519.ToBytes` | musl-telix/src/crypto_curve25519.c:26-55 | 32 bytes that are the unique little-endian representative below 2^255 - 19, under exactly that condition, which every product fe_mul returns meets |
| `Curve25519.LoadWord` | musl-telix/src/crypto_curve25519.c:12-12 | the or-and-shift loop reads a word little-endian |
| `Curve25519.UnpackValue` | musl-telix/src/crypto_curve25519.c:17-21 | cutting four words into limbs keeps the value modulo 2^255 |
| `Curve25519.FromBytes` | musl-telix/src/crypto_curve25519.c:9-24 | limbs below 2^51 whose value is the low 255 bits of the input |
| `Curve25519.SquareTimes` | musl-telix/src/crypto_curve25519.c:123-124 | a squaring loop of n turns doubles the exponent n times |
| `Curve25519.FeInvert` | musl-telix/src/crypto_curve25519.c:112-147 | the whole addition chain computes z^(2^255 - 21), which is the inverse of every z that is not zero modulo 2^255 - 19; out may be z |
| `Fermat.LittleTheorem` | musl-telix/src/crypto_curve25519.c:112-147 | a^p = a modulo every prime p |
| `Fermat.InverseModPrime` | musl-telix/src/crypto_curve25519.c:112-147 | z times z^(p - 2) is 1 modulo every prime p that does not divide z |
| `Primes.Pocklington` | musl-telix/src/crypto_curve25519.c:112-147 | n is prime if 2^(n - 1) is 1 modulo n and 2^((n - 1) / q) - 1 has an inverse, for a prime q with q^2 above (n - 1) / q and no room for two factors that are 1 modulo q |
| `Prime25519.PIsPrime` | musl-telix/src/crypto_curve25519.c:112-147 | 2^255 - 19 is prime, by a chain of seven primes |
| `Mutex.ExclusiveStep` | musl-telix/src/pthread.c:112-141 | every step of any thread keeps: the word is 0, 1 or 2, at most one thread owns the mutex, and the word is 0 exactly when none does |
| `Mutex.WakeupStep` | musl-telix/src/pthread.c:112-141 | every step keeps: a sleeper is covered by word 2, by an unlocker that still owes a wake, or by an awake thread in the slow path |
| `Mutex.RunInv` | musl-telix/src/pthread.c:112-141 | both hold in every state of every run of any number of threads, with spurious wakeups |
| `Mutex.NobodyStranded` | musl-telix/src/pthread.c:112-141 | in no reachable state are all threads idle or asleep with one of them asleep |
| `Mutex.WakeOne` | musl-telix/src/pthread.c:112-141 | from every state that satisfies the invariant with a sleeper, some continuation without spurious wakeups wakes one |
| `Mutex.RunCanWakeEverybody` | musl-telix/src/pthread.c:112-141 | from every reachable state some continuation without spurious wakeups leaves nobody asleep |
| `Mutex.GrantedExactly` | musl-telix/src/pthread.c:112-132 | in every run, a step of lock or trylock that tries for the mutex gets it if and only if nobody owned it, and moves nobody else; a trylock that does not get it leaves the word alone; a lock waits only when the word is 2 |
| `Mutex.WaitSleepsExactly` | musl-telix/src/pthread.c:121-124 | in every run the futex wait of a lock sleeps if and only if the word is still 2, and then somebody owns the mutex |
| `Mutex.EverybodyCanLock` | musl-telix/src/pthread.c:112-141 | from every state of every run, every thread that has called lock, asleep or not, can get the mutex without a spurious wakeup |
| `Mutex.EverybodyCanUnlock` | musl-telix/src/pthread.c:134-141 | from every state of every run, whoever owns the mutex or is unlocking it can return from unlock |
| `CondVar.StepInv` | musl-telix/src/pthread.c:155-176 | every step keeps: the word is the number of increments modulo 2^32, and no completed broadcast is later than the moment a sleeper went to sleep |
| `CondVar.RunInv` | musl-telix/src/pthread.c:155-176 | in every run |
| `CondVar.NoMissedWake` | musl-telix/src/pthread.c:155-176 | a thread that captured the counter before the increment of a broadcast is not asleep once that broadcast has made its wake, provided the counter did not wrap between capture and sleep |
| `CondVar.WaitSleepsExactly` | musl-telix/src/pthread.c:155-162 | in every run the wait step falls asleep if and only if the increments since the capture are a multiple of 2^32, and then misses a broadcast if and only if one was completed in between |
| `CondVar.MissedExactly` | musl-telix/src/pthread.c:155-176 | in every run a sleeper has missed a completed broadcast if and only if at least 2^32 increments lay between its capture and its wait, a completed broadcast among them |
| `CondVar.WrapLosesBroadcasts` | musl-telix/src/pthread.c:155-176 | a run with 2^32 broadcasts between capture and sleep leaves the thread asleep |
| `CondVar.SignalWakesOne` | musl-telix/src/pthread.c:164-169 | the wake of a signal wakes exactly one sleeper, if there is one |
| `CondVar.SignalStolenExactly` | musl-telix/src/pthread.c:155-169 | at the wake of a signal, with a thread asleep that was waiting at its increment: the wake can pass over all such threads if and only if some sleeper began to wait after the increment |
| `CondVar.StolenSignal` | musl-telix/src/pthread.c:155-169 | a run in which it does |
| `CondVar.BroadcastWakesAll` | musl-telix/src/pthread.c:171-176 | from every state, a broadcast of an idle thread returns and leaves nobody asleep |
| `CondVar.SignalReturns` | musl-telix/src/pthread.c:164-169 | from every state with sleepers, a signal of an idle thread returns and can wake any one of them, and nobody else |
| `Once.StepInv` | musl-telix/src/pthread.c:184-198 | every step keeps the state of the word, the runner and the sleepers in agreement |
| `Once.RunInv` | musl-telix/src/pthread.c:184-198 | in every run |
| `Once.ExactlyOnce` | musl-telix/src/pthread.c:184-198 | the routine is entered at most once, nobody returns before it has finished, and no sleeper is left once the wake has been made |
| `Once.WaitSleepsExactly` | musl-telix/src/pthread.c:192-195 | in every run a latecomer's wait sleeps if and only if somebody is in the routine |
| `Once.EverybodyCanReturn` | musl-telix/src/pthread.c:184-198 | from every state of every run, everybody can return without a spurious wakeup, and the routine has then run exactly once |
| `SshTransport.PaddingLen` | musl-telix/src/ssh_transport.c:122-125 | padding is 4 to 11 bytes and makes the whole packet a multiple of 8 |
| `SshTransport.PlainRoundTrip` | musl-telix/src/ssh_transport.c:119-166 | decoding an encoded plain packet in front of any bytes returns the payload and exactly those bytes |
| `SshTransport.EncryptedRoundTrip` | musl-telix/src/ssh_transport.c:183-284 | the same under equal keys and sequence numbers, length field, body and tag included |
| `SshTransport.RoundTrip` | musl-telix/src/ssh_transport.c:288-300 | the same for whichever mode is active |
| `SshTransport.NonceIsNumber` | musl-telix/src/ssh_transport.c:175-181 | the nonce is eight zero bytes and the sequence number, so nonces are equal only for equal numbers |
| `SshTransport.NoncesAreFresh` | musl-telix/src/ssh_transport.c:175-181 | no two of any 2^32 successive packets share a nonce, wherever the counter starts |
| `SshTransport.BuildNonce` | musl-telix/src/ssh_transport.c:175-181 | the byte stores of make_nonce give that nonce |
| `SshTransport.EncryptedParts` | musl-telix/src/ssh_transport.c:183-230 | the first half of the key encrypts the length from block 0, the second half the body from block 1, and the first 32 bytes of its block 0 are the key of the tag over both |
| `SshTransport.StreamRecovered` | musl-telix/src/ssh_transport.c:119-300 | a peer with the same keys and counter recovers exactly the list of payloads from the concatenated stream, across the switch to encryption and the wrap of the counter |
| `SshTransport.Converse` | musl-telix/src/ssh_transport.c:288-300 | two endpoints that call ssh_send_packet and ssh_recv_packet in any order of turns, over sockets that split as they like: what has been received is the list sent, in order, from its beginning; every turn sends or receives its packet unless a socket call failed, which on a reliable socket none does; the counters stay in step |
| `SshTransport.TcpSendAll` | musl-telix/src/ssh_transport.c:10-20 | sends exactly the buffer, in pieces of at most 16 bytes however the socket splits them; on failure a proper prefix |
| `SshTransport.TcpRecvAll` | musl-telix/src/ssh_transport.c:22-30 | receives exactly the next len bytes however the socket splits them |
| `SshTransport.Transport.SendPlain` | musl-telix/src/ssh_transport.c:119-141 | puts the encoding of the payload on the wire and steps the send counter once; on failure the counter stays |
| `SshTransport.Transport.RecvPlain` | musl-telix/src/ssh_transport.c:143-166 | returns the decoding of the incoming bytes and consumes exactly that packet; -1 exactly on a broken connection or an undecodable packet |
| `SshTransport.Transport.SendEncrypted` | musl-telix/src/ssh_transport.c:183-230 | the same for the encrypted encoding under the current counter |
| `SshTransport.Transport.RecvEncrypted` | musl-telix/src/ssh_transport.c:232-284 | the same for the encrypted decoding; a wrong tag is refused and leaves the counter |
| `SshTransport.Transport.SendPacket` | musl-telix/src/ssh_transport.c:295-300 | sends in the mode that is active |
| `SshTransport.Transport.RecvPacket` | musl-telix/src/ssh_transport.c:288-293 | receives in the mode that is active |
| `SshKeys.DeriveKey` | musl-telix/src/ssh_transport.c:344-374 | the key is the first outLen bytes of the blocks K1 = hash(K, H, letter, id), K(n+1) = hash(K, H, K1 .. Kn) |
| `SshKeys.KeyPrefix` | musl-telix/src/ssh_transport.c:344-374 | a shorter key is a prefix of a longer one |
| `SshKeys.CanonicalIsShortest` | musl-telix/src/ssh_transport.c:377-395 | the bodies without an unnecessary leading byte are exactly the shortest non-negative ones of their value |
| `SshKeys.MpintMeaning` | musl-telix/src/ssh_transport.c:377-395 | the encoded body has the value of the input and a clear sign bit, and is the shortest such body if and only if the value is not zero |
| `SshKeys.ZeroIsNotCanonical` | musl-telix/src/ssh_transport.c:382-387 | zero is encoded in one byte, where the standard asks for none |
| `SshKeys.EncodeMpint` | musl-telix/src/ssh_transport.c:377-395 | length prefix and body |
| `SshKeys.BeReverse` | musl-telix/src/ssh_transport.c:398-403 | reversing the bytes turns the little-endian value into the same big-endian value |
| `Sha256.AbsorbConcat` | musl-telix/src/crypto_sha256.c:59-62 | compressing in two calls at a block boundary is compressing once |
| `Sha256.AppendByte` | musl-telix/src/crypto_sha256.c:59-62 | one byte into the buffer keeps state and buffer in agreement with the message so far, full block or not |
| `Sha256.FinalBlocks` | musl-telix/src/crypto_sha256.c:65-78 | the last one or two blocks are the rest of the padded message, for every length modulo 64 |
| `Sha256.Context.constructor` | musl-telix/src/crypto_sha256.c:47-53 | an empty message |
| `Sha256.Context.Update` | musl-telix/src/crypto_sha256.c:55-63 | appends the data to the message |
| `Sha256.Context.Final` | musl-telix/src/crypto_sha256.c:65-78 | the hash of the message, padded as section 5.1.1 of FIPS 180-4 says |
| `Sha256.HashChunks` | musl-telix/src/crypto_sha256.c:47-85 | any partition of a message into updates gives the hash of the whole |
| `Sha256.Transform` | musl-telix/src/crypto_sha256.c:32-45 | the transform, loops and variables as written, is the compression function of section 6.2.2 of FIPS 180-4 |
| `Sha256.KFromRoots` | musl-telix/src/crypto_sha256.c:5-14 | every round constant is the first 32 bits of the fraction of the cube root of its prime |
| `Sha256.IVFromRoots` | musl-telix/src/crypto_sha256.c:47-51 | every word of the initial state is the first 32 bits of the fraction of the square root of its prime |
| `SshChannel.GetStringExactly` | musl-telix/src/ssh_transport.c:70-78 | in ints, position and length are those of the packet format if and only if the length is below 2^32 - 9; otherwise the position lies inside the length field and the length is negative |
| `SshChannel.ParseString` | musl-telix/src/ssh_transport.c:70-78 | the position and the length, or a negative position exactly when there is no string |
| `SshChannel.RequestIsParsed` | musl-telix/src/ssh_session.c:252-313 | for every length below 2^32 - 9 a request is handled as its string says |
| `SshChannel.AllOnesLengthIsMisread` | musl-telix/src/ssh_session.c:260-262 | a length field of all ones is taken as -1, and the request is answered |
| `SshChannel.DataPacketParses` | musl-telix/src/ssh_transport.c:57-78 | a data packet parses back to its bytes |
| `SshChannel.PacketsOnTheWire` | musl-telix/src/ssh_session.c:329-336 | the layout of data, adjustment and reply packets: type, the peer's channel, length or credit, data |
| `SshChannel.Session.NextChunk` | musl-telix/src/ssh_session.c:319-327 | for every limit the peer can name, in ints: the packet size is positive and within the data and a packet if and only if the limit is a positive int, or larger and the window is small enough; it is then the least of what is left, the limits and the window; under a limit of 0 it is 0 |
| `SshChannel.ImproperSizes` | musl-telix/src/ssh_session.c:319-327 | two limits for which it is not proper |
| `SshChannel.Session.SendTurn` | musl-telix/src/ssh_session.c:318-339 | one turn of the loop: the packet of that size is sent and the window reduced by exactly it, or the window is used up, or the transport fails |
| `SshChannel.Session.SendData` | musl-telix/src/ssh_session.c:317-341 | sends a prefix of the data as packets within the limits and reduces the window by exactly its length; all of it on success; without a transport failure it stops only on an empty window |
| `SshChannel.Session.ZeroLimitTurns` | musl-telix/src/ssh_session.c:317-341 | under a limit of 0, after any number of turns that many empty packets have been sent, all of the data is left and the window is unchanged, unless the transport failed |
| `SshChannel.Session.HandleRequest` | musl-telix/src/ssh_session.c:252-313 | for every length field: terminal and shell requests are noted, and a request that asks for it gets one reply, success exactly for the known types |
| `SshChannel.Session.ProcessPacket` | musl-telix/src/ssh_session.c:362-408 | data reduces the local window and refills it below 64 KiB with an adjustment of 1 MiB; an adjustment raises the remote window; requests are handled; close, errors and unknown packets change nothing; the replies are sent unless the transport is broken |
| `SshChannel.OtherMovesNoCredit` | musl-telix/src/ssh_session.c:252-313 | requests, their replies and unknown packets leave both windows alone |
| `SshChannel.ReceiveData` | musl-telix/src/ssh_session.c:368-388 | data within the window leaves it at least 64 KiB and below 64 KiB + 1 MiB, by exactly the credit sent back |
| `SshChannel.StepInv` | musl-telix/src/ssh_session.c:317-395 | every step of two endpoints over FIFO links keeps credit and data conserved in both directions |
| `SshChannel.RunInv` | musl-telix/src/ssh_session.c:226-243 | in every run from any opening windows in range |
| `SshChannel.WindowsAreConserved` | musl-telix/src/ssh_session.c:317-395 | in every state: sender window + data in flight + credit in flight = receiver window, which stays in [0x10000, 0x110000); bytes delivered and in flight are exactly the bytes sent, in order |
| `SshChannel.IdleLinkLeavesCredit` | musl-telix/src/ssh_session.c:317-395 | drained links leave each side at least 64 KiB of credit and everything delivered |
| `SshChannel.LinksCanDrain` | musl-telix/src/ssh_session.c:317-408 | from every state of every run, receiving alone can empty both links; everything sent has then been handed over and each side may send a low-water mark of bytes |
| `SshChannel.RequestIsAnswered` | musl-telix/src/ssh_session.c:252-313 | a request that asks for an answer, sent over drained links, is answered by the next packet back, success exactly for the known types |
| `SshChannel.NoArrivalOverruns` | musl-telix/src/ssh_session.c:368-388 | no arriving packet exceeds the receiver's window or is an error |
| `SshChannel.SendDataIsSteps` | musl-telix/src/ssh_session.c:317-341 | a whole call of SendData is a sequence of send steps of the two-party protocol |
| `Crc32c.Init` | tools/sctp-echo-server.c:49-61 | the table holds eight register shifts of every byte |
| `Crc32c.ByteStep` | tools/sctp-echo-server.c:66-67 | one table step is eight bit steps |
| `Crc32c.Compute` | tools/sctp-echo-server.c:63-69 | the table-driven CRC is the bit-at-a-time CRC, for every byte string |
| `Crc32c.CheckValue` | tools/sctp-echo-server.c:63-69 | the CRC of the text "123456789" is 0xE3069283 |
| `Crc32c.LeadingZeroIsSeen` | tools/sctp-echo-server.c:65-65 | a zero byte in front of any message changes its CRC |
| `Crc32c.Checksum` | tools/sctp-echo-server.c:72-80 | the CRC of the packet with its checksum field zeroed |
| `Crc32c.Stamp` | tools/sctp-echo-server.c:82-89 | a stamped packet verifies, and only its checksum field changed |
| `Crc32c.Verify` | tools/sctp-echo-server.c:517-520 | the receiver's test is verification |
| `Crc32c.BurstDetected` | tools/sctp-echo-server.c:63-69 | changing up to 32 consecutive bits of a message of any length changes the CRC, if and only if they change at all |
| `Crc32c.PacketBurstDetected` | tools/sctp-echo-server.c:517-520 | two different packets that differ only in up to 32 consecutive bits outside the checksum field, or within it, never both verify |
| `Crc32c.EscapesExactly` | tools/sctp-echo-server.c:517-520 | whatever the packet, an error escapes if and only if its part in the field is the register, from 0, of the rest of it |
| `Crc32c.EdgeBurstEscapes` | tools/sctp-echo-server.c:517-520 | a burst of 32 bits across the edge of the field escapes in every packet of 12 bytes |
| `Crc32c.OneByteDetected` | tools/sctp-echo-server.c:517-520 | changing any one byte of a packet that verifies, in the field or outside it, is detected |
| `Regex.MatchClass` | musl-telix/src/regex.c:13-33 | the class loop accepts exactly the characters in some range, or in none when negated |
| `Regex.ClassEnd` | musl-telix/src/regex.c:36-43 | the end of a class: the first closing bracket that is not right at its start |
| `Regex.AtomMatch` | musl-telix/src/regex.c:47-64 | the length of the first atom, and whether it takes the character |
| `Regex.ComputeAtomLen` | musl-telix/src/regex.c:67-75 | the length of the first atom |
| `Regex.CountRun` | musl-telix/src/regex.c:93-101 | the longest run the starred atom takes |
| `Regex.DoMatch` | musl-telix/src/regex.c:78-118 | greedy backtracking succeeds if and only if some prefix of the subject (all of it under a dollar) is in the language of the parsed pattern; it terminates |
| `Regex.ParseOfPrint` | musl-telix/src/regex.c:36-75 | every pattern the syntax can spell is what its spelling parses to |
| `Regex.SearchIsExact` | musl-telix/src/regex.c:144-181 | the offsets tried find a match if and only if there is one and it is not one of the missed ones |
| `Regex.MissedOccurs` | musl-telix/src/regex.c:144-144 | a missed match is a match |
| `Regex.DollarIsMissed` | musl-telix/src/regex.c:144-144 | a lone dollar matches in every subject, and is not found in a non-empty one |
| `Regex.Exec` | musl-telix/src/regex.c:133-183 | on success the least offset at which the pattern matches; it fails exactly when there is none or it is missed; the end reported is that of the subject, which ends a match if and only if the pattern under a dollar first matches at the same offset |
| `Regex.DollarParses` | musl-telix/src/regex.c:36-75 | appending a dollar, after spelling out a lone backslash at the end, gives every pattern the same elements under a dollar |
| `Regex.EndIsRight` | musl-telix/src/regex.c:133-183 | two calls tell: the end reported for a pattern is the end of a match if and only if the pattern with a dollar appended is found at the same offset |
| `Regex.StarFreeSpan` | musl-telix/src/regex.c:149-167 | for a pattern without stars: if and only if the match lies in the last characters of the subject |
| `Regex.EndIsTooFar` | musl-telix/src/regex.c:149-167 | regexec of the pattern a on the subject ab reports the end 2, where no match ends |
| `Malloc.BucketFor` | musl-telix/src/malloc.c:25-30 | the first bucket that holds the size, or the last |
| `Malloc.BucketOfSize` | musl-telix/src/malloc.c:25-34 | the size in a header leads back to the block's own bucket |
| `Malloc.BucketCovers` | musl-telix/src/malloc.c:25-34 | a bucket covers the size if and only if the size is at most 256 KiB |
| `Malloc.RoomCovers` | musl-telix/src/malloc.c:48-69 | for every size_t request, wrapping ones included, the block it gets covers it if and only if request + 8 is at most 256 KiB |
| `Malloc.LargestRequestIsShort` | musl-telix/src/malloc.c:48-69 | a request of 256 KiB gets 8 bytes less |
| `Malloc.HeldIsSound` | musl-telix/src/malloc.c:36-81 | when the pointers a program holds are the live blocks, no two of them overlap, header or payload, and the stored words lie inside |
| `Malloc.PayloadIsNoHeader` | musl-telix/src/malloc.c:48-81 | no word of a payload is the header or link word of any block |
| `Malloc.Heap.constructor` | musl-telix/src/malloc.c:15-17 | an empty heap |
| `Malloc.Heap.AllocPages` | musl-telix/src/malloc.c:36-46 | pages that cover the request at the old top of the heap, less than a page more; no change when the kernel refuses them or has no addresses left |
| `Malloc.Heap.TakeFree` | musl-telix/src/malloc.c:55-62 | the head of a list becomes live and the list loses exactly it |
| `Malloc.Heap.Malloc` | musl-telix/src/malloc.c:48-69 | keeps every block in exactly one place; takes the head of the free list of the bucket when there is one; fails only when pages are refused or the address space is used up; the new block was not live and overlaps no other; only its header word changes; its usable size covers the request if and only if request + 8 is at most 256 KiB |
| `Malloc.Heap.Free` | musl-telix/src/malloc.c:71-81 | the block goes to the head of the list of its own bucket, and no other word changes |
| `Malloc.Heap.UserWrite` | musl-telix/src/malloc.c:48-81 | a program writing anywhere in a live payload leaves every list and header intact |
| `Malloc.IntactAfterMalloc` | musl-telix/src/malloc.c:48-69 | an allocation leaves every word the program stored in blocks it holds |
| `Malloc.IntactAfterFree` | musl-telix/src/malloc.c:71-81 | a release leaves every word stored in the other blocks |
| `Malloc.Run` | musl-telix/src/malloc.c:48-81 | every sequence of allocations, releases and stores, the pointers returned being part of the result: before and after every operation the memory agrees with the replay of the operations so far - no two held blocks overlap and every word stored in a held block is the one stored last - and an allocation fails only when pages or addresses run out and never returns a held pointer |
| `WaylandObjects.Client.RecvFds` | tools/wl_compositor_min.c:1649-1662 | received descriptors are queued in order, and closed beyond 16 |
| `WaylandObjects.Client.ObjClear` | tools/wl_compositor_min.c:789-827 | the entry is emptied and its reference given back; a pool is freed and its descriptor closed exactly at zero |
| `WaylandObjects.Client.CreatePool` | tools/wl_compositor_min.c:1033-1073 | the first queued descriptor becomes the new pool's, over whatever entry the id had, or is closed |
| `WaylandObjects.Client.CreateBuffer` | tools/wl_compositor_min.c:1085-1114 | if the 32-bit test accepts the geometry, the entry becomes a buffer of the pool, even when the new id is the pool's own |
| `WaylandObjects.AcceptedExactly` | tools/wl_compositor_min.c:1096-1100 | the 32-bit test accepts every buffer inside its pool, and a buffer it accepts is inside if and only if its width in bytes and its end fit an int |
| `WaylandObjects.WrappedEndIsAccepted` | tools/wl_compositor_min.c:1096-1100 | a geometry whose end wraps to 0 |
| `WaylandObjects.BuffersInsideExactly` | tools/wl_compositor_min.c:1085-1138 | after every sequence of requests a live buffer lies inside its pool if and only if its geometry fits an int, however the pool has grown since |
| `WaylandObjects.Client.Resize` | tools/wl_compositor_min.c:1121-1138 | only the size of the pool changes |
| `WaylandObjects.Client.Destroy` | tools/wl_compositor_min.c:1115-1120 | the entry is emptied |
| `WaylandObjects.Client.CreateOther` | tools/wl_compositor_min.c:1011-1020 | the entry becomes an object without a pool |
| `WaylandObjects.Client.Cleanup` | tools/wl_compositor_min.c:1826-1829 | every pool is freed and the closed descriptors are exactly the received ones |
| `WaylandObjects.CountedMeansAlive` | tools/wl_compositor_min.c:789-827 | no entry refers to a freed pool |
| `WaylandObjects.Requests` | tools/wl_compositor_min.c:1809-1825 | for every sequence of requests, before and after each: the table is the one the requests call for, every pool has the count of the references to it and is freed exactly at none, and every descriptor received is closed, queued or owned by a live pool |
| `WaylandObjects.Serve` | tools/wl_compositor_min.c:1796-1830 | the same, and at the end every descriptor has been closed as often as received and every pool freed |
| `WaylandStream.SplitConcat` | tools/wl_compositor_min.c:1809-1825 | cutting messages from a stream can be interrupted anywhere |
| `WaylandStream.ParsedFrame` | tools/wl_compositor_min.c:1575-1585 | object, opcode and arguments of a framed message are read back, and its length is the one its header says |
| `WaylandStream.FrameParsed` | tools/wl_compositor_min.c:1575-1585 | conversely, a message of the length its header says is the frame of what is read from it |
| `WaylandStream.SplitLossless` | tools/wl_compositor_min.c:1809-1825 | the frames of the messages, and the rest, are the stream, byte for byte |
| `WaylandStream.SplitFramed` | tools/wl_compositor_min.c:1809-1825 | messages framed one after the other are cut apart into exactly those messages, whatever follows |
| `WaylandStream.MessagesAreWhole` | tools/wl_compositor_min.c:1575-1585 | every message has the length its header says, between 8 and 8192 |
| `WaylandStream.RoomToGoOn` | tools/wl_compositor_min.c:1809-1825 | after the inner loop the buffer has room, unless its message is longer than the buffer |
| `WaylandStream.Receiver.DispatchOne` | tools/wl_compositor_min.c:1575-1622 | hands over object, opcode and arguments of the first message if it is complete; 0 for more data; -1 for a length below 8 |
| `WaylandStream.Receiver.Drop` | tools/wl_compositor_min.c:1821-1823 | the buffer loses exactly the handled message |
| `WaylandStream.Receiver.Drain` | tools/wl_compositor_min.c:1815-1824 | dispatches every complete message in order and keeps the rest |
| `WaylandStream.Receiver.Fill` | tools/wl_compositor_min.c:1628-1647 | the received bytes follow the content |
| `WaylandStream.Receive` | tools/wl_compositor_min.c:1809-1825 | the messages dispatched over a connection are those of the byte stream, however the socket splits it, for every stream |
| `WaylandStream.ReceiveFramed` | tools/wl_compositor_min.c:1575-1825 | what a client frames is what the handlers get, message for message, however the socket splits it |
| `TimeUtil.YearStep` | musl-telix/src/time_util.c:39-41 | the closed day count of the proleptic Gregorian calendar steps by the length of the year, for every year |
| `TimeUtil.DateIsUnique` | musl-telix/src/time_util.c:43-83 | different dates are different days |
| `TimeUtil.IsLeap` | musl-telix/src/time_util.c:39-41 | with truncating remainders, the Gregorian rule also before year 0 |
| `TimeUtil.SplitDay` | musl-telix/src/time_util.c:45-47 | truncating division set right is rounding down, cut to an int |
| `TimeUtil.ComputeWeekday` | musl-telix/src/time_util.c:55-56 | the weekday, right if and only if day + 4 does not overflow |
| `TimeUtil.FindYear` | musl-telix/src/time_util.c:58-66 | the year that holds the day, before 1970 too |
| `TimeUtil.FindMonth` | musl-telix/src/time_util.c:72-80 | the month and day of the month |
| `TimeUtil.Tm.GmtimeR` | musl-telix/src/time_util.c:43-83 | for every t, in-range fields that denote the instant with the day count cut to an int, so t itself if and only if the day count fits; the weekday of that day if and only if it is not one of the last four |
| `TimeUtil.LastDayHasWrongWeekday` | musl-telix/src/time_util.c:55-56 | the last day of the range has another weekday |
| `TimeUtil.Tm.Mktime` | musl-telix/src/time_util.c:89-104 | the instant the fields denote, months carried into the year, if and only if the year is at least 1970 and the month is not negative; for earlier years an instant of the first year |
| `TimeUtil.ThereAndBack` | musl-telix/src/time_util.c:43-104 | for every t, mktime undoes gmtime_r if and only if t is not negative and its day count fits an int |
| `TimeUtil.TwoThatDoNotComeBack` | musl-telix/src/time_util.c:43-104 | the second before the epoch and the first day out of range do not come back |
| `Heap4.UpStep` | kernel/src/sched/heap.rs:309-319 | swapping a too small entry with its parent moves the one possible violation up |
| `Heap4.DownStep` | kernel/src/sched/heap.rs:326-350 | swapping a too large entry with its least child moves the one possible violation down |
| `Heap4.RootIsLeast` | kernel/src/sched/heap.rs:113-119 | the root has the least key |
| `Heap4.RunQueue.SiftUp` | kernel/src/sched/heap.rs:309-319 | restores the heap and changes neither contents nor the agreement of positions |
| `Heap4.RunQueue.LeastChild` | kernel/src/sched/heap.rs:333-342 | the least of up to four children |
| `Heap4.RunQueue.SiftDown` | kernel/src/sched/heap.rs:326-350 | restores the heap and changes neither contents nor the agreement of positions |
| `Heap4.RunQueue.Insert` | kernel/src/sched/heap.rs:129-143 | adds exactly the thread, unless the heap is full |
| `Heap4.RunQueue.Remove` | kernel/src/sched/heap.rs:227-244 | removes exactly the entry at the position, whichever way the moved entry has to go |
| `Heap4.RunQueue.PopMin` | kernel/src/sched/heap.rs:198-211 | removes the root, which has the least key; None exactly when empty |
| `Heap4.RunQueue.UpdateKey` | kernel/src/sched/heap.rs:291-304 | changes exactly the key of the thread at the position |
| `Heap4.RunQueue.Scan` | kernel/src/sched/heap.rs:157-174 | the rotating scan finds an eligible thread with the least key, if and only if some eligible key is below 2^64 - 1; among equal keys the first in turn from the rotating origin |
| `Heap4.OriginWins` | kernel/src/sched/heap.rs:161-165 | what the origin is for: an earliest eligible thread at the origin is the one picked |
| `Heap4.RunQueue.PickEligible` | kernel/src/sched/heap.rs:153-194 | removes the eligible thread with the earliest deadline, first in turn, when the scan finds one, and the root otherwise; the pick is an earliest eligible thread if and only if some eligible deadline is below 2^64 - 1 or the root is eligible; the origin moves on by one |
| `Heap4.LastDeadlineIsPassedOver` | kernel/src/sched/heap.rs:153-194 | two insertions and a pick: an ineligible thread is picked although the other is eligible and stays in the queue |
| `Heap4.NobodyStarves` | kernel/src/sched/heap.rs:54-67 | however many threads are tied, with each put back after its pick: every one is picked within one pick more than there are threads, and within as many picks as threads if and only if the origin is at the last position |
| `Heap4.LenPicksMissOne` | kernel/src/sched/heap.rs:62-66 | two threads of which two picks get the first twice |
| `Heap4.RunQueue.PickAndRequeue` | kernel/src/sched/heap.rs:129-194 | on a tie a pick and an insertion exchange the entry at the origin with the last one, and move the origin on |
| `Heap4.RunQueue.TurnsForAll` | kernel/src/sched/heap.rs:129-194 | a run of picks in which every tied thread has its turn: one more than there are threads, or at most one more than twice as many when the counter wraps |
| `Heap4.TwoTied` | kernel/src/sched/heap.rs:129-194 | two insertions with one deadline and three picks, which get to both threads |
| `Cdt.BelowIsDescendants` | kernel/src/cap/cdt.rs:19-33 | what is linked below a node is what reaches it by parent links |
| `Cdt.Tree.constructor` | kernel/src/cap/cdt.rs:58-63 | an empty tree |
| `Cdt.Tree.StringUp` | kernel/src/cap/cdt.rs:66-79 | new nodes are all on the free list, in order, and no old node changes |
| `Cdt.Tree.AllocNode` | kernel/src/cap/cdt.rs:191-213 | a node that was free, growing when none is; nodes in use are untouched; fails exactly when it cannot grow |
| `Cdt.Tree.InsertRoot` | kernel/src/cap/cdt.rs:83-95 | one new tree of one node; refused exactly when no node can be had |
| `Cdt.Tree.InsertDerived` | kernel/src/cap/cdt.rs:99-131 | the new node is the first child of an active parent and nothing else changes; refused exactly for an inactive parent or when no node can be had |
| `Cdt.Tree.FreeNode` | kernel/src/cap/cdt.rs:215-219 | the node goes to the head of the free list |
| `Cdt.Tree.RevokeSubtree` | kernel/src/cap/cdt.rs:222-232 | frees exactly the node and everything below it and counts them, at any depth |
| `Cdt.Tree.RevokeList` | kernel/src/cap/cdt.rs:224-229 | the same for a list of siblings, read before it is freed |
| `Cdt.Tree.RevokeChildren` | kernel/src/cap/cdt.rs:137-154 | exactly the descendants by parent links become inactive and are counted; every other node keeps its links and capability |
| `KernelPark.StepInv` | kernel/src/sched/scheduler.rs:11510-12252 | every atomic access of the parking thread, its CPU, any waker and any sender that hands over keeps the invariant: the right to the thread exists once, and while its stack switch is under way only a sender that waits for it has it |
| `KernelPark.HandOverInv` | kernel/src/syscall/handlers.rs:926-945 | a direct hand-off finds the thread off its stack, cleared up after, and with its word free, and keeps the invariant |
| `KernelPark.RunInv` | kernel/src/sched/scheduler.rs:11510-12252 | in every run of any number of wakers and rounds in which no claim of an earlier round is outstanding when the thread commits |
| `KernelPark.TidyRunsAreSafe` | kernel/src/sched/scheduler.rs:11739-11770 | in those runs a thread that is about to be run, from a queue or by a hand-off, is off its kernel stack, and is about to be run once |
| `KernelPark.NoWakeIsLost` | kernel/src/sched/scheduler.rs:12152-12250 | in those runs, when all wakes and clears have run to their ends, a parked thread is on a queue or its word is still Committed |
| `KernelPark.WakesAreDelivered` | kernel/src/sched/scheduler.rs:12138-12250 | in those runs, when a wake was called since the thread last published its word and everything has run to its end, the thread is on a queue or not off its stack |
| `KernelPark.EarlyWakeRunsOn` | kernel/src/sched/scheduler.rs:11763-11797 | a thread whose word is taken before it commits gets back to running by its own steps, without leaving its stack |
| `KernelPark.HandOffsAreDelivered` | kernel/src/syscall/handlers.rs:926-952 | the same for a hand-off, unless its second swap finds the thread committed |
| `KernelPark.HandOffLostExactly` | kernel/src/syscall/handlers.rs:926-952 | at that swap in every such run, with the other wakers idle: without a further call the thread can be left off its stack and on no queue if and only if the swap finds the word at Committed |
| `KernelPark.CommitsBetween` | kernel/src/syscall/handlers.rs:930-950 | which takes a commit between the two swaps |
| `KernelPark.HandOffIsLost` | kernel/src/syscall/handlers.rs:926-952 | a complete run from the initial state in which it happens |
| `KernelPark.EverythingCanRest` | kernel/src/sched/scheduler.rs:11510-12252 | from every state of those runs with the thread committed, all parties can run to their ends without a further call, and a thread that had been woken is then running or on a queue |
| `KernelPark.StaleClaimBreaks` | kernel/src/sched/scheduler.rs:11530-11577 | wherever such a claim is outstanding while the thread is switching, one wake leads to a thread that is queued while on its stack |
| `KernelPark.CommitBreaksExactly` | kernel/src/sched/scheduler.rs:11510-12252 | at every commit of every run that kept the condition so far, with a waker at hand: some continuation without a further commit dispatches the thread on its stack or twice if and only if a claim of an earlier round is outstanding |
| `KernelPark.TwoOwnersAreReachable` | kernel/src/sched/scheduler.rs:11541-11577 | a complete run from the initial state that does so |
| `KernelRcu.LeastGen` | kernel/src/sync/rcu.rs:281-287 | the least of the counters |
| `KernelRcu.Process` | kernel/src/sync/rcu.rs:289-334 | frees exactly the batches whose epoch every counter has passed, keeps the others in order, and gives a drained current batch the present epoch |
| `KernelRcu.ProcessCallbacks` | kernel/src/sync/rcu.rs:265-337 | the whole callback pass, from the counters as read to the pending count: frees exactly the objects of the batches every online CPU has passed, and the count goes down by as many |
| `KernelRcu.FilledDeferred` | kernel/src/sync/rcu.rs:198-262 | a deferral adds one to the pending count, and only the batch being filled can be empty |
| `KernelRcu.DeferredContents` | kernel/src/sync/rcu.rs:240-259 | a deferral adds exactly the object it was given to what waits |
| `KernelRcu.ProcessedContents` | kernel/src/sync/rcu.rs:265-337 | a callback pass frees exactly what leaves the queue, each object as often as it was there |
| `KernelRcu.AllFullKept` | kernel/src/sync/rcu.rs:251-259 | batches are put on the list when they are full, and only then |
| `KernelRcu.DeferralsAreConserved` | kernel/src/sync/rcu.rs:193-337 | in every state of every run, over all CPUs: how often an object waits plus how often it was freed is how often it was deferred, at most once |
| `KernelRcu.EveryDeferralCanBeFreed` | kernel/src/sync/rcu.rs:193-337 | in every state of every run, whatever waits can still be freed, by counter increments and callback passes alone |
| `KernelRcu.CounterCanGoOn` | kernel/src/sync/rcu.rs:58-70 | from every state a CPU's counter can go on, also when its callback pass is skipped, and then nothing is freed |
| `KernelRcu.FreedInTime` | kernel/src/sync/rcu.rs:265-337 | an object freed by a callback pass is not held by a CPU that was not past its epoch when it was removed |
| `KernelRcu.StepInv` | kernel/src/sync/rcu.rs:58-70 | every publication, read, removal, deferral, counter increment and callback pass, with counters read one by one, keeps: a holder has not been quiescent since the removal, and queued objects carry the epoch of their batch |
| `KernelRcu.RunInv` | kernel/src/sync/rcu.rs:58-337 | in every run on any number of CPUs |
| `KernelRcu.TimelyReadersAreSafe` | kernel/src/sync/rcu.rs:193-337 | in every run no object is freed while a CPU holds it that owns its queue or was not past its epoch |
| `KernelRcu.SynchronizeWaits` | kernel/src/sync/rcu.rs:72-97 | in every run, when synchronize_rcu returns, nobody holds an object removed before it was called |
| `KernelRcu.LateIsFreedInUse` | kernel/src/sync/rcu.rs:278-319 | from every state with a reader past the epoch, ticks of the other CPUs alone free the object under it |
| `KernelRcu.FreedUnderReaderExactly` | kernel/src/sync/rcu.rs:193-337 | in every state of every run: some continuation frees a queued object under a reader if and only if the reader is on another CPU that was past the epoch of its batch when it was removed |
| `KernelRcu.FreedInUseIsReachable` | kernel/src/sync/rcu.rs:218-224 | a complete run from the initial state that does so |
| `VmaTree.ChainIsEntries` | kernel/src/mm/vmatree.rs:326-332 | walking the leaf chain visits every mapping in order |
| `VmaTree.GrownLeafOrdered` | kernel/src/mm/vmatree.rs:397-452 | cutting a full leaf keeps its entries and puts the key between the halves |
| `VmaTree.GrownNodeOrdered` | kernel/src/mm/vmatree.rs:500-556 | cutting a full inner node keeps its entries and gives the middle key to the parent |
| `VmaTree.InsertOrdered` | kernel/src/mm/vmatree.rs:222-281 | insertion keeps every start between the keys around it and adds the mapping in its place, through any cascade of cuts |
| `VmaTree.InsertIsInserted` | kernel/src/mm/vmatree.rs:222-281 | the same for the whole tree with a new root when the old one is cut |
| `VmaTree.RemoveIsRemoved` | kernel/src/mm/vmatree.rs:386-395 | taking an entry out of its leaf keeps order and removes exactly the mapping that starts there |
| `VmaTree.MapIsInserted` | kernel/src/mm/vmatree.rs:222-281 | the whole insert call, the first mapping included, keeps the tree and its count and adds exactly the mapping |
| `VmaTree.RouteIsAround` | kernel/src/mm/vmatree.rs:349-370 | the keys lead to the leaf with everything before it starting no later, and everything after it later, than the address |
| `VmaTree.FindExactly` | kernel/src/mm/vmatree.rs:166-213 | None when no mapping contains the address; otherwise the mapping that does, except exactly when it is not in the leaf searched and the leaf before is empty |
| `VmaTree.UnmapIsRemoved` | kernel/src/mm/vmatree.rs:283-308 | the whole remove call: true exactly when a mapping starts there, which is then gone; the count stays right and the tree is given back with the last mapping |
| `VmaTree.RunIsSpec` | kernel/src/mm/vmatree.rs:222-308 | after every sequence of calls that map free ranges and unmap anything, the index is an ordered tree of exactly the mappings that are there |
| `VmaTree.LookupExactly` | kernel/src/mm/vmatree.rs:166-213 | lookup after every such sequence: what is found is mapped and contains the address, and nothing is found if and only if no mapping contains it or it is missed behind an emptied leaf |
| `VmaTree.MapsOnlyFindsAll` | kernel/src/mm/vmatree.rs:166-281 | as long as nothing has been unmapped, lookup finds every mapping |
| `VmaTree.MissedRun` | kernel/src/mm/vmatree.rs:166-308 | a sequence of sixty-three calls after which a live mapping is not found |

## Left out

- x25519, the ladder and everything above fe_sub: fe_sub does not subtract, so nothing positive holds of them.
- crypto_ed25519.c: a second copy of the field layer with the same subtraction, and a scalar layer that indexes past its accumulator.
- The strength of ChaCha20, Poly1305 and SHA-256: the code is proved to compute them.
- Poly1305.ComputeMac: messages below 2^64 bytes, the range of size_t.
- The futex, mmap, socket and page-allocation system calls: taken by contract, failures and spurious wakeups included.
- CondVar.RunInv: the mutex around the condition variable is not part of its state, only the order of capture, unlock and sleep.
- Mutex.RunInv: unlocking by a thread that does not hold the mutex is not modelled.
- SshTransport.Transport.RecvEncrypted: the stack buffers of the source are values here; their sizes are the bounds on the packet length.
- SSH key exchange, version exchange and authentication: sequences of the operations modelled here.
- SshChannel.Session.SendData: a limit of 0, under which the loop does not end (ZeroLimitTurns), and limits beyond the ints with a window that is not small, for which it copies past the data or the packet.
- SshChannel.Session.ProcessPacket: data packets with a length of 2^32 - 9 or more, for which the source copies a negative number of bytes.
- SshChannel.RunInv: the links lose nothing, and both endpoints run this code with an opening window in [0x10000, 0x110000); the server opens with 0x100000.
- Regex.DoMatch: patterns with an unclosed bracket, which the source reads past.
- Malloc.Heap.Malloc: memory is words at addresses; calloc, and alignment, are not modelled.
- WaylandObjects.Client.CreateBuffer: int arithmetic wraps, where C leaves overflow undefined; mappings are not tracked.
- WaylandStream.Receive: a socket that returns without data is not a step.
- Compositor requests about surfaces, shells, seats and outputs: to the table they are creations and destructions of objects without a pool.
- Crc32c.PacketBurstDetected: bursts across an edge of the checksum field, some of which escape (EdgeBurstEscapes); EscapesExactly says which.
- TimeUtil.Tm.GmtimeR: int conversion and arithmetic wrap, where C leaves them to the implementation or undefined.
- TimeUtil.Tm.Mktime: months above 12, which index past the table, and fields whose products overflow an int are not modelled.
- Heap4.RunQueue.PickEligible: the picked_count statistics; pop_for_group is the same scan with one more condition.
- Cdt.Tree.AllocNode: growth past 2^32 - 1 nodes is refused, a test the source does not make; its indices wrap there.
- Cdt.Tree.RevokeChildren: remove and unlink_child, which nothing calls, and the slots that held the capabilities.
- KernelPark.RunInv: memory is sequentially consistent, which the two fences of the source are there for; CPU affinity, priorities and the rescue paths are not modelled.
- KernelRcu.RunInv: CPUs do not come and go, a reader holds nothing across a quiescent state, counters do not wrap at 64 bits, and the two paths that free at once, without memory for a batch and inside RCU itself, are not modelled.
- VmaTree.InsertOrdered: nodes are values, so shifting inside arrays, the search for a parent by pointer and failed allocations are not modelled; mappings do not overlap, as the callers ensure.
- The rest of the kernel, the file-system and network servers, and the user-space shims.
