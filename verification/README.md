# InfoGlobe firmware and its SSH library: a verified model

The project models the parts of the firmware and of the libssh2 copy inside it whose correctness is hard to see, and
proves what they are for. `dafny verify dfyconfig.toml` checks everything.

| files | what they model |
|---|---|
| `Words`, `Arithmetic`, `Sequences` | bytes and 32-bit words as bounded integers with exclusive or by bits; the few facts about division and sequences that the proofs need by name |
| `Blowfish`, `CipherLaws`, `KeySchedule`, `KeyLaws`, `BlowfishContext` | the cipher, ECB and CBC over buffers, the key schedule that rewrites the tables it is using; the class `Blowfish.Context` works in place |
| `StridedOutput`, `BcryptPbkdf`, `BcryptLaws` | the key derivation and its strided output loop |
| `PacketQueue`, `ReceiveState`, `ReceiveRuns`, `ReceiveCredit`, `ReceiveObservers`, `ReceiveDrain`, `SessionRuns`, `ChannelReceive` | the shared packet queue, the receive window, runs of arrivals and reads, the window's account over runs, the functions that look at the queue, what reads of all streams take out of it, and runs of a session with several channels; the class `ChannelReceive.Receiver` |
| `SendState`, `SendProofs`, `SendQuiet`, `SendAfterClose`, `CloseWait`, `SendCodes`, `ChannelSend` | write, EOF and CLOSE, each resumable after EAGAIN, runs of them, what follows an EOF or a CLOSE on the wire, and the wait for the peer's CLOSE; the class `ChannelSend.Sender` |
| `ChannelIds` | channel ids over the session's list and the listeners' queues, as linked objects |
| `Base64`, `Base64Laws` | the library's base64 |
| `KnownHostLine`, `KnownHostRoundTrip`, `KnownHostStore`, `KnownHostFile`, `KnownHostCodes`, `KnownHostCheck`, `KnownHostPort` | known_hosts lines, files and lookup; the class `KnownHostStore.KnownHosts` |
| `OtaServer`, `OtaCodes` | the firmware update's receive loop |
| `IrTransmitter` | the infrared transmitter: a task and a timer callback sharing globals |

Each operation exists twice: as a method with the source's loops, cursors and updates, and as a function on values that
the method's contract equates with it. What the functions compute is fixed a second time, by laws that say it of inputs
and outputs alone: equations between the words of a cipher or an expansion, between the blocks of a mode, the code and
the bytes of every read, write, close and update, the spelling of names and numbers. The theorems are about the
functions and about runs of them: the environment (arrivals, outcomes of sends and reads, timer ticks) is an arbitrary
list of steps.

Some of what the source promises holds only under a condition. Then the condition is stated and the equivalence proved:

- a CBC buffer comes back if its length is a multiple of 8 (`CbcBufferRoundTrip`), and for every other length of at
  least 8 some buffer does not (`CbcMisalignedFails`), since the first length mod 8 bytes stay ciphertext
  (`MisalignedPrefixStays`);
- window and queued adjustments change by exactly what is requested and read over every run in which no send blocks or
  fails (`RunsConserveWindow`); with sends that do, the window agrees with the peer's credit if and only if no step
  completes an earlier message with another amount (`RunsAccount`);
- reads of two streams compete for packets in merge mode: other reads leave a stream's account alone if and only if the
  two are compatible (`ConservingMeansCompatible`, with the witness `MergedReadSteals`);
- reads of all streams empty a channel, and return as many bytes as read_avail says, if and only if every unread packet
  is readable (`DrainEmpties`): extended data for stream 0 outside merge mode is queued and counted, masks the peer's
  EOF, and no read ever takes it (`UnreadableSticks`);
- no data follows an EOF if and only if no blocked write is repeated, and goes out, after it, since a repeated write
  does not look at the EOF flag again (`RunsAreQuiet`; before the call: `WriteIsSafe`);
- once CLOSE is out, nothing follows it in any run of writes, closes and incoming messages if and only if no write is
  pending and EOF has been sent or the channel is marked closed (`CloseIsLastExactly`; before a call: `CloseIsSafe`,
  `WriteIsSafeAfterClose`); otherwise an EOF or data can follow (`EofFollowsClose`, `DataFollowsClose`);
- close ends before the peer's CLOSE has come if and only if it gives up: it skips the wait after a send that failed
  hard or without a socket, or leaves it at the first read that brings anything but CLOSE
  (`ClosedWithoutPeer`, `OtherMessageEndsWait`);
- an id is new unless the counter has come round to a live one (`NextIdFresh`);
- a printed known_hosts line is read back exactly when its entry is storable (`ReadUndoesWrite`): three typical losses
  have lemmas of their own;
- an update image is complete exactly when a non-empty receive with room in the buffer follows the one that completes
  the header (`UpdateImage`);
- the transmitter stays in step over a run exactly when fewer than eight ticks ever pass between the end of a message
  and the stop of the timer (`TimelyMeansInStep`), and once it is late it never loads a message again (`LateForever`).

The code is followed where a comment of the source says something else. The comment above `hostline` says that comments
are parsed only for ssh-rsa and ssh-dss keys: every key that does not begin with a digit has its comment parsed. The
comment above `libssh2_knownhost_checkp` speaks of ports greater than zero: port 0 is looked up with the port as well.

## Model

| member | source | states |
|---|---|---|
| Words.XorAt | hello_world/components/libssh2/src/blowfish.c:66-68 | a bit of the exclusive or is set if and only if it is set in exactly one operand |
| Cipher.FOfBytes | hello_world/components/libssh2/src/blowfish.c:63-66 | the round function indexes the four S-boxes by the four bytes, most significant first, and mixes by add, xor, add |
| Cipher.RoundUndoes | hello_world/components/libssh2/src/blowfish.c:68 | a round under the reversed subkeys, on exchanged halves, takes one round back |
| Cipher.RoundsUndo | hello_world/components/libssh2/src/blowfish.c:81-88 | k rounds under the reversed subkeys take the last k of sixteen rounds back, for every k |
| Cipher.NetworkUndoes | hello_world/components/libssh2/src/blowfish.c:70-118 | the whole sixteen-round network under reversed subkeys is the inverse of the network |
| Cipher.DecryptInvertsEncrypt | hello_world/components/libssh2/src/blowfish.c:70-118 | deciphering undoes enciphering for every content of the subkeys and S-boxes |
| Cipher.EncryptInvertsDecrypt | hello_world/components/libssh2/src/blowfish.c:70-118 | enciphering undoes deciphering, likewise |
| CipherLaws.EncryptIs | hello_world/components/libssh2/src/blowfish.c:70-93 | the cipher's equation: along any words x with x[0] the right half, x[1] the left half under P[0] and each further word the one before the last mixed with F of the last and P[i], the result is x[16] under P[17], and x[17] |
| CipherLaws.DecryptIs | hello_world/components/libssh2/src/blowfish.c:95-118 | the same for deciphering, with P[17 - i] |
| CipherLaws.TrailExists | hello_world/components/libssh2/src/blowfish.c:70-93 | there always are such words |
| CipherLaws.BlockIs | hello_world/components/libssh2/src/blowfish.c:537-557 | a block's bytes spell its two words, the most significant first, before and after |
| Blowfish.Context.Blfrnd | hello_world/components/libssh2/src/blowfish.c:68 | the in-place round macro carries the network on by one round of any schedule whose next subkey it is given |
| Blowfish.Context.RoundPair | hello_world/components/libssh2/src/blowfish.c:81-88 | one source line of two macro uses, with the halves' roles exchanged, is two rounds |
| Blowfish.Context.Encipher | hello_world/components/libssh2/src/blowfish.c:70-93 | the unrolled rounds compute the sixteen-round network over the current tables |
| Blowfish.Context.Decipher | hello_world/components/libssh2/src/blowfish.c:95-118 | the unrolled rounds with descending subkeys compute the network over the reversed tables |
| Blowfish.Context.constructor | hello_world/components/libssh2/src/blowfish.c:120-397 | a new context holds the given initial tables |
| Blowfish.CursorIsModulo | hello_world/components/libssh2/src/blowfish.c:409-412 | the lazily wrapping cursor reads the byte at its absolute position modulo the length |
| Blowfish.Stream2Word | hello_world/components/libssh2/src/blowfish.c:399-418 | four reads through the cursor give the big-endian word of the endlessly repeated data at that position, and the next cursor |
| Blowfish.Context.MixKey | hello_world/components/libssh2/src/blowfish.c:431-435 | every subkey is xored with its word of the repeated key |
| Blowfish.Context.RewriteSubkeys | hello_world/components/libssh2/src/blowfish.c:441-445 | the running block is enciphered under the tables as they are at that moment and stored over one pair of subkeys |
| Blowfish.Context.RewriteBoxes | hello_world/components/libssh2/src/blowfish.c:450-453 | the same for one pair of S-box entries |
| Blowfish.Context.RefillBox | hello_world/components/libssh2/src/blowfish.c:448-455 | one S-box is refilled in 128 steps, each under half-rewritten tables |
| Blowfish.Context.SaltSubkeys | hello_world/components/libssh2/src/blowfish.c:479-486 | the subkey loop of the salted expansion makes the first nine steps and leaves the salt cursor after 72 bytes |
| Blowfish.Context.SaltBox | hello_world/components/libssh2/src/blowfish.c:489-496 | the same for a salted refill, the salt cursor carried on across the boxes |
| Blowfish.Context.Expand0State | hello_world/components/libssh2/src/blowfish.c:420-455 | the table-rewriting loops compute the 521-step expansion of the tables without salt |
| Blowfish.Context.ExpandState | hello_world/components/libssh2/src/blowfish.c:458-499 | the loops of the salted expansion compute it with the salt stream mixed in before every step |
| Blowfish.Context.Key | hello_world/components/libssh2/src/blowfish.c:501-509 | blf_key expands the initial tables whatever the context held before |
| KeySchedule.KeyedDependsOn72 | hello_world/components/libssh2/src/blowfish.c:431-435 | two keys are mixed in alike if and only if the first 72 bytes of their repetitions agree |
| KeySchedule.ExpandDependsOn72 | hello_world/components/libssh2/src/blowfish.c:420-499 | then the whole expanded context is the same, salted or not |
| KeySchedule.LongKeyTruncates | hello_world/components/libssh2/src/blowfish.c:431-435 | key bytes after the 72nd have no influence |
| KeySchedule.RepeatedKeySame | hello_world/components/libssh2/src/blowfish.c:399-455 | a key and any repetition of it that still fits a 16-bit length give the same context |
| KeySchedule.ZeroSaltIsNoSalt | hello_world/components/libssh2/src/blowfish.c:458-499 | a salt of zero bytes of any positive length gives the context of the expansion without salt |
| KeyLaws.KeyIsMixedIn | hello_world/components/libssh2/src/blowfish.c:420-499 | expansion under a key is expansion under zeros of the tables whose subkeys are xored with the big-endian words of the repeated key's bytes |
| KeyLaws.PairIsEnciphered | hello_world/components/libssh2/src/blowfish.c:438-455 | each of the 521 pairs of the result is the pair before it, for the first zeros, xored with the next two words of the salt's bytes and enciphered under the tables rewritten so far |
| KeyLaws.PartsExist | hello_world/components/libssh2/src/blowfish.c:438-455 | those tables and that block exist for every pair |
| BlockModes.EcbRoundTrip | hello_world/components/libssh2/src/blowfish.c:537-579 | ECB under an inverse block function restores any whole number of blocks |
| BlockModes.CbcRoundTrip | hello_world/components/libssh2/src/blowfish.c:581-645 | CBC decryption undoes CBC encryption for any block functions inverse to each other, any IV and any number of blocks |
| BlockModes.EcbSplits | hello_world/components/libssh2/src/blowfish.c:537-557 | ECB over a concatenation of whole blocks is the two separate calls |
| BlockModes.CbcEncryptSplits | hello_world/components/libssh2/src/blowfish.c:581-604 | CBC encryption of a concatenation is the second call chained to the first by its last ciphertext block |
| BlockModes.CbcDecryptSplits | hello_world/components/libssh2/src/blowfish.c:606-645 | CBC decryption splits likewise, chained by the last ciphertext block of the first part |
| BlockModes.PairsSplit | hello_world/components/libssh2/src/blowfish.c:511-522 | blf_enc over a concatenation of pairs is the two separate calls |
| BlockModes.BlfDecInvertsEnc | hello_world/components/libssh2/src/blowfish.c:511-535 | blf_dec undoes blf_enc for any number of blocks |
| BlockModes.EcbDecryptInvertsEncrypt | hello_world/components/libssh2/src/blowfish.c:537-579 | blf_ecb_decrypt undoes blf_ecb_encrypt for any number of blocks and any tables |
| BlockModes.CbcBufferRoundTrip | hello_world/components/libssh2/src/blowfish.c:581-645 | on a length that is a positive multiple of 8 the backward pass restores exactly what the forward pass changed, and the rest of the buffer is untouched |
| BlockModes.CbcMisalignedFails | hello_world/components/libssh2/src/blowfish.c:581-645 | for every other length of at least 8 there are tables, an IV and a buffer that do not come back |
| BlockModes.MisalignedPrefixStays | hello_world/components/libssh2/src/blowfish.c:615-645 | for every length of at least 8 the first length mod 8 bytes stay ciphertext after both passes, whatever tables, IV and data |
| CipherLaws.EcbAt | hello_world/components/libssh2/src/blowfish.c:537-579 | block i of ECB is block i put through the cipher |
| CipherLaws.CbcEncryptAt | hello_world/components/libssh2/src/blowfish.c:581-604 | block i of CBC is the cipher of block i xored with ciphertext block i - 1, or with the IV |
| CipherLaws.CbcDecryptAt | hello_world/components/libssh2/src/blowfish.c:606-645 | block i of CBC decryption is the deciphered block xored with ciphertext block i - 1, or with the IV |
| CipherLaws.EncryptBufferAt | hello_world/components/libssh2/src/blowfish.c:581-604 | the same for the blocks of the buffer, over the length rounded up by less than a block, and nothing behind changes |
| CipherLaws.DecryptBufferAt | hello_world/components/libssh2/src/blowfish.c:606-645 | the same for the blocks aligned to the end, and no byte before or behind them changes |
| CipherLaws.PairsAt | hello_world/components/libssh2/src/blowfish.c:511-535 | pair i of blf_enc is pair i put through the cipher |
| Blowfish.EcbDoneAt | hello_world/components/libssh2/src/blowfish.c:537-579 | in place: the first blocks are each put through the cipher and nothing else changes |
| Blowfish.PairsDoneAt | hello_world/components/libssh2/src/blowfish.c:511-535 | likewise for the first pairs of words |
| Blowfish.Context.Enc | hello_world/components/libssh2/src/blowfish.c:511-522 | blf_enc enciphers the first pairs of an array in place and leaves the others |
| Blowfish.Context.Dec | hello_world/components/libssh2/src/blowfish.c:524-535 | blf_dec deciphers them in place |
| Blowfish.Context.EcbEncrypt | hello_world/components/libssh2/src/blowfish.c:537-557 | blf_ecb_encrypt, in place, is ECB over the length rounded up to whole blocks |
| Blowfish.Context.EcbDecrypt | hello_world/components/libssh2/src/blowfish.c:559-579 | blf_ecb_decrypt, in place, likewise |
| Blowfish.Context.CbcEncryptInPlace | hello_world/components/libssh2/src/blowfish.c:581-604 | the forward in-place pass, its IV pointer following into the buffer it has just written, computes CBC encryption |
| Blowfish.Context.CbcDecryptInPlace | hello_world/components/libssh2/src/blowfish.c:606-645 | the backward in-place pass computes CBC decryption of the blocks aligned to the end, and no other byte changes |
| StridedOutput.EveryByteOnce | hello_world/components/libssh2/src/bcrypt_pbkdf.c:124-125 | for every block size and key length each index of the key is written exactly once and no other index is |
| StridedOutput.FirstColumn | hello_world/components/libssh2/src/bcrypt_pbkdf.c:124-125 | the first limit is the height of the tallest column and never exceeds the block |
| StridedOutput.StrideBounds | hello_world/components/libssh2/src/bcrypt_pbkdf.c:124 | the stride is at least 1, at most the key length, and stride blocks cover the key |
| StridedOutput.InsideKey | hello_world/components/libssh2/src/bcrypt_pbkdf.c:165-168 | the break is taken exactly when the row number reaches the height of the column |
| StridedOutput.RemainingStep | hello_world/components/libssh2/src/bcrypt_pbkdf.c:171 | what is counted off for a column is its height, which is positive and never grows from column to column |
| StridedOutput.LoopSteps | hello_world/components/libssh2/src/bcrypt_pbkdf.c:135-171 | the outer loop runs exactly stride times; in every turn the shrinking limit covers the column, stays within the block and within what is missing |
| StridedOutput.FilledNext | hello_world/components/libssh2/src/bcrypt_pbkdf.c:164-170 | writing one column puts its bytes in place and keeps all earlier ones |
| BcryptPbkdf.Scatter | hello_world/components/libssh2/src/bcrypt_pbkdf.c:164-170 | the inner output loop writes exactly the rows of its column, in order, and stops there |
| BcryptPbkdf.FillColumn | hello_world/components/libssh2/src/bcrypt_pbkdf.c:160-171 | the end of a turn keeps the loop's state, the bytes placed so far and the list of writes |
| BcryptPbkdf.Hash | hello_world/components/libssh2/src/bcrypt_pbkdf.c:59-97 | bcrypt_hash in place: 64 alternating expansions, 64 encryptions of the magic words, bytes out least significant first |
| BcryptPbkdf.ExpandKeys | hello_world/components/libssh2/src/bcrypt_pbkdf.c:71-77 | the loop of expansions turns the initial tables into the 64-fold alternation of salt and password |
| BcryptPbkdf.LittleEndianByte | hello_world/components/libssh2/src/bcrypt_pbkdf.c:88-93 | output byte m is byte m modulo 4, counted from the low end, of word m / 4 |
| BcryptPbkdf.DeriveBlock | hello_world/components/libssh2/src/bcrypt_pbkdf.c:135-158 | one block is T = U_1 xor ... xor U_rounds of section 5.2 of RFC 8018, with U_1 over salt and INT(count) |
| BcryptPbkdf.DeriveKey | hello_world/components/libssh2/src/bcrypt_pbkdf.c:134-172 | after the outer loop byte d of the key is byte d / stride of block d mod stride + 1 |
| BcryptPbkdf.Pbkdf | hello_world/components/libssh2/src/bcrypt_pbkdf.c:99-178 | the whole function: exactly which arguments are refused, and otherwise byte d of the key is byte d / s of block d mod s + 1 for s = (keylen + 31) / 32, the list of writes, and that nothing behind the key changes |
| BcryptLaws.MagicIsText | hello_world/components/libssh2/src/bcrypt_pbkdf.c:62-64 | the magic string |
| BcryptLaws.BcryptHashIs | hello_world/components/libssh2/src/bcrypt_pbkdf.c:59-97 | along any 129 tables, the first expanded under salt and password and each pair of further ones under salt, then password, and any 65 lists of words enciphered from one to the next, the hash is the last list with the bytes of each word least significant first |
| BcryptLaws.AlternationExists | hello_world/components/libssh2/src/bcrypt_pbkdf.c:71-77 | there always are such tables |
| BcryptLaws.EncryptionsExist | hello_world/components/libssh2/src/bcrypt_pbkdf.c:79-86 | and such lists |
| BcryptLaws.BlockIsChain | hello_world/components/libssh2/src/bcrypt_pbkdf.c:135-158 | along any chain of hashes, the first over salt and big-endian block number and each further one over the hash before it, a block is the exclusive or of them all |
| PacketQueue.TakeConserves | hello_world/components/libssh2/src/channel.c:2033-2120 | one pass over the queue returns the front of the chosen streams' bytes, as much as fits, and leaves the rest in order |
| PacketQueue.TakeKeepsUnchosen | hello_world/components/libssh2/src/channel.c:2118-2119 | one pass leaves the packets outside any wider choice with their contents and in their order |
| PacketQueue.TakeLeavesOthers | hello_world/components/libssh2/src/channel.c:2063-2081 | reading one choice of packets leaves the bytes of a disjoint choice as they were |
| PacketQueue.TakeReducesWider | hello_world/components/libssh2/src/channel.c:2083-2116 | a read takes from any wider choice exactly as many bytes as it returns |
| PacketQueue.StreamsDisjoint | hello_world/components/libssh2/src/channel.c:2070-2081 | two streams never compete for a packet if and only if they differ and, in merge mode, both or neither are extended |
| ReceiveState.AcceptedWhole | hello_world/components/libssh2/src/packet.c:813-861 | a data message is queued whole if and only if it respects the packet size and what is left of the window |
| ReceiveState.AcceptedPart | hello_world/components/libssh2/src/packet.c:804-861 | else the part queued is the least of what came, the packet size and the room in the window |
| ReceiveState.ArriveFlags | hello_world/components/libssh2/src/packet.c:836-1014 | EOF sets one flag and CLOSE both, queued data clears the first, and nothing else touches them |
| ReceiveState.ReadReports | hello_world/components/libssh2/src/channel.c:2122-2139 | the result of a read that copies bytes is their number, and no other read has a positive result |
| ReceiveState.NothingReadCode | hello_world/components/libssh2/src/channel.c:2122-2134 | a read that gets as far as the queue and finds nothing says EAGAIN if and only if the transport does and neither EOF nor CLOSE has come, else 0 |
| ReceiveState.StoppedReadCode | hello_world/components/libssh2/src/channel.c:2003-2046 | one that does not get as far reports the blocked or failed window message, or the transport's code |
| ReceiveInvariant.ArriveKeepsBalanced | hello_world/components/libssh2/src/packet.c:729-861 | an arrival keeps read_avail equal to the queued bytes and within the window |
| ReceiveInvariant.DeliverKeepsBalanced | hello_world/components/libssh2/src/channel.c:2122-2139 | so does a delivery, which takes the bytes returned off both counters |
| ReceiveInvariant.ReadKeepsBalanced | hello_world/components/libssh2/src/channel.c:1986-2140 | so does a whole read, whatever its window adjustment and the arrivals do, unless a counter wraps |
| ReceiveInvariant.ReadKeepsWindowOpen | hello_world/components/libssh2/src/channel.c:2003-2022 | after every read that delivers data the window is at least 3 * (initial / 4), when the sums of window sizes and buffer length fit 32 bits |
| ReceiveWindow.TopUpIsSent | hello_world/components/libssh2/src/channel.c:2008-2017 | the top-up a read asks for is at least 1024 and so is sent at once, never merely queued |
| ReceiveWindow.ResumedReadFinishes | hello_world/components/libssh2/src/channel.c:1996-2022 | a read stopped at its window message takes it up again, and a send that goes through completes it |
| ReceiveWindow.WidenedIsWide | hello_world/components/libssh2/src/channel.c:2003-2022 | when the widening succeeds there is room for the buffer above three quarters of the initial window, also on a resumed attempt |
| ReceiveWindow.UnblockedAdjustConserves | hello_world/components/libssh2/src/channel.c:1796-1846 | one call with a send that goes through: window plus queue grows by exactly the request, the peer is granted what is added, and less than 1024 stays queued |
| ReceiveWindow.AdjustOutcome | hello_world/components/libssh2/src/channel.c:1796-1846 | what a new request does to window, queue and code for each outcome of its send: it waits below 1024, else one message carries it and what was queued |
| ReceiveWindow.AdjustAccounts | hello_world/components/libssh2/src/channel.c:1796-1846 | a call adds to the window what the peer is granted, except exactly when it completes an earlier message of another amount |
| ReceiveWindow.RetryAccounts | hello_world/components/libssh2/src/channel.c:1812-1841 | a blocked call repeated with its own amount is accounted for if and only if nothing had been queued before it |
| ReceiveRuns.RunsConserve | hello_world/components/libssh2/src/channel.c:2033-2139 | over every run of arrivals, reads of any sizes and other channels' reads, what the callers of the stream's reads were told they have, followed by what is queued, is what was accepted for it, in order, if the channel's other reads do not compete for it |
| ReceiveRuns.RunsStayBalanced | hello_world/components/libssh2/src/channel.c:1986-2140 | over every run without a wrapping counter the counters stay in step with the queue and within the window |
| ReceiveRuns.RunsKeepOthers | hello_world/components/libssh2/src/channel.c:2033-2139 | over every run of the channel's arrivals and reads the packets that are not its data stay in the queue with their contents and in the order of their arrival |
| SessionRuns.RunView | hello_world/components/libssh2/src/channel.c:1986-2140 | every run of a session with several channels over the one queue is, for each of its channels, a run of that channel: arrivals for others are packets of someone else, their reads looks at the queue |
| SessionRuns.SessionConserves | hello_world/components/libssh2/src/channel.c:2033-2139 | so in every run of a session what the reads of any stream of any channel returned, followed by what is queued, is what was accepted for it, in order, whatever the other channels do |
| SessionRuns.SessionStaysBalanced | hello_world/components/libssh2/src/channel.c:1986-2140 | and every channel's counters stay in step with its part of the shared queue unless its own window counter wraps |
| ReceiveCredit.RunsConserveWindow | hello_world/components/libssh2/src/channel.c:1796-2137 | over every run in which no send blocks or fails, window plus queued adjustments plus bytes read grows by exactly the adjustments requested, and less than 1024 is ever queued |
| ReceiveCredit.ReadAccounts | hello_world/components/libssh2/src/channel.c:2136-2137 | a read takes off the window exactly the bytes it returns and grants the peer only what its window adjustment grants |
| ReceiveCredit.ExecAccounts | hello_world/components/libssh2/src/channel.c:1796-1846 | after a step the window agrees with the peer's credit if and only if the step does not complete an earlier message of another amount |
| ReceiveCredit.RunsAccount | hello_world/components/libssh2/src/channel.c:1796-1846 | over a run without a wrapping counter it agrees at every point if and only if no step does so |
| ReceiveRuns.MergedReadSteals | hello_world/components/libssh2/src/channel.c:2070-2081 | in merge mode, for each pair of the standard and an extended stream and either one as the reader, a history and a read that takes bytes the other stream was waiting for |
| ReceiveRuns.ConservingMeansCompatible | hello_world/components/libssh2/src/channel.c:2070-2081 | reads of one stream keep the account of another in every history if and only if the two streams are the same or never share a packet in the mode |
| ReceiveObservers.EofReadsNothing | hello_world/components/libssh2/src/channel.c:2459-2493 | when libssh2_channel_eof says so and nothing arrives, a whole read of any stream delivers nothing, and returns 0 unless its window adjustment or the transport stops it first |
| ReceiveObservers.FirstLengthIsReadable | hello_world/components/libssh2/src/channel.c:2186-2239 | a positive packet_data_len n means that a whole read that gets as far as the queue delivers, and reports, at least min(n, buflen) |
| ReceiveObservers.AvailableIsPending | hello_world/components/libssh2/src/channel.c:2848-2879 | the read_avail handed out is the number of queued bytes of the channel, whether or not a stream can read them |
| ReceiveObservers.AvailableFalls | hello_world/components/libssh2/src/channel.c:2848-2879 | with nothing arriving it falls by exactly the bytes each whole read returns, and in a balanced state it is the channel's own counter |
| ReceiveDrain.SomeStreamReads | hello_world/components/libssh2/src/channel.c:2070-2081 | some stream number selects a data packet if and only if it is plain data, or the mode is merge, or its stream code is not 0 |
| ReceiveDrain.TakeAllLeaves | hello_world/components/libssh2/src/channel.c:2033-2120 | after a read with room for all of one choice, what is pending of any other choice is what was pending of it outside the first |
| ReceiveDrain.DrainLeaves | hello_world/components/libssh2/src/channel.c:2033-2139 | reads of any list of streams leave exactly the bytes of the packets none of them selects, and return all others |
| ReceiveDrain.DrainEmpties | hello_world/components/libssh2/src/channel.c:2848-2879 | some list of reads empties the channel, returning as many bytes as read_avail says, if and only if every unread packet is readable |
| ReceiveDrain.UnreadableSticks | hello_world/components/libssh2/src/packet.c:742-861 | extended data for stream 0 arriving in normal mode: counted by read_avail, masking EOF, and never taken by a read of any stream |
| ChannelReceive.Receiver.ReceiveWindowAdjust | hello_world/components/libssh2/src/channel.c:1786-1847 | the method on the channel's fields computes the adjustment on values and touches nothing else |
| ChannelReceive.Receiver.PacketAdd | hello_world/components/libssh2/src/packet.c:729-1014 | the arrival of a message changes queue, counters and flags as specified |
| ChannelReceive.Receiver.CopyOne | hello_world/components/libssh2/src/channel.c:2083-2119 | one turn of the copying loop moves what a single packet contributes |
| ChannelReceive.Receiver.CopyOut | hello_world/components/libssh2/src/channel.c:2033-2120 | the in-place loop over the queue fills the buffer with, and leaves, what one pass specifies |
| ChannelReceive.Receiver.Read | hello_world/components/libssh2/src/channel.c:1986-2140 | the whole non-blocking read: new state, result and buffer contents, for every outcome of send and transport |
| ChannelReceive.Receiver.Eof | hello_world/components/libssh2/src/channel.c:2459-2493 | true exactly when the peer's EOF is not masked by queued data of the channel |
| ChannelReceive.Receiver.PacketDataLen | hello_world/components/libssh2/src/channel.c:2186-2239 | the unread length of the first packet a read of the stream would take from |
| ChannelReceive.Receiver.WindowReadEx | hello_world/components/libssh2/src/channel.c:2837-2883 | window, initial window and queued bytes |
| SendCredit.RunsPay | hello_world/components/libssh2/src/channel.c:2251-2380 | over every run of calls and adjustments the bytes sent plus the window left equal the initial window plus what was granted, and no message exceeded 32700 or the packet size |
| SendCredit.ExecPays | hello_world/components/libssh2/src/channel.c:2251-2380 | every single step keeps that account |
| SendData.WriteReports | hello_world/components/libssh2/src/channel.c:2349-2380 | a write puts on the wire exactly the front of the buffer it reports as written, also on a retry after EAGAIN |
| SendData.WriterSendsInOrder | hello_world/components/libssh2/src/channel.c:2251-2380 | whatever blocks or fails in between, what was sent is the front of the caller's data, in order, without gap or repetition |
| SendCodes.WriteSendsLeast | hello_world/components/libssh2/src/channel.c:2266-2379 | a new write that goes out carries and returns exactly the least of the buffer's length, 32700, the window and the packet size |
| SendCodes.BlockedWriteResumes | hello_world/components/libssh2/src/channel.c:2266-2379 | one that would block says EAGAIN, and repeated it sends and returns just that much |
| SendCodes.FailedWrite | hello_world/components/libssh2/src/channel.c:2355-2366 | a failed send drops the message and is reported |
| SendCodes.RefusedWrite | hello_world/components/libssh2/src/channel.c:2277-2285 | a new write after close or EOF is refused with the one code or the other |
| SendCodes.WriteWithoutCredit | hello_world/components/libssh2/src/channel.c:2287-2312 | without credit or after a failed read of the transport nothing is sent, and which code says so |
| SendClosing.CloseKeepsLaws | hello_world/components/libssh2/src/channel.c:2561-2642 | one close call keeps the closing laws and returns something other than EAGAIN if and only if it marked the channel closed |
| SendClosing.RunsKeepLaws | hello_world/components/libssh2/src/channel.c:2410-2642 | over every run CLOSE is sent at most once, only after EOF was sent or its send failed hard, and the callback fires exactly once, when local.close is set |
| SendCodes.CloseSends | hello_world/components/libssh2/src/channel.c:2561-2642 | what one close puts on the wire, in order: EOF unless sent, CLOSE unless sent, and the callback once closed |
| SendCodes.CloseCode | hello_world/components/libssh2/src/channel.c:2561-2642 | the code of a close for every outcome of its sends and its wait |
| SendClosing.EofTriedMeans | hello_world/components/libssh2/src/channel.c:2573-2582 | what the summary's EOF flags say about positions in the history |
| SendClosing.OrderedMeans | hello_world/components/libssh2/src/channel.c:2573-2616 | the summary calls a history ordered if and only if every CLOSE attempt stands after an EOF attempt |
| SendClosing.QuietMeans | hello_world/components/libssh2/src/channel.c:2277-2285 | the summary calls a history quiet if and only if no data stands after a sent EOF |
| SendQuiet.ExecKeepsQuiet | hello_world/components/libssh2/src/channel.c:2269-2380 | one step keeps data from following an EOF (section 5.3 of RFC 4254) if and only if it is not a write repeated, and sent, after the EOF |
| SendQuiet.WriteIsSafe | hello_world/components/libssh2/src/channel.c:2269-2285 | before the call: a write keeps it for every outcome if and only if it is not the case that EOF was sent over a write still to be repeated |
| SendQuiet.RunsAreQuiet | hello_world/components/libssh2/src/channel.c:2269-2380 | over every run no data follows an EOF if and only if no step is such a write |
| SendQuiet.NeverPendingIsQuiet | hello_world/components/libssh2/src/channel.c:2269-2285 | so a caller that never has EOF sent over a blocked write never sends data after it |
| SendQuiet.PendingWriteOutlivesEof | hello_world/components/libssh2/src/channel.c:2349-2380 | an input that breaks it: the checks are skipped when a blocked write is repeated |
| SendAfterClose.ExecAfterClose | hello_world/components/libssh2/src/channel.c:2251-2642 | one step keeps data and EOF from following a CLOSE (section 5.3 of RFC 4254) if and only if it does not send one of them with CLOSE already out |
| SendAfterClose.CloseIsOut | hello_world/components/libssh2/src/channel.c:2602-2616 | until the channel is marked closed its close state says whether CLOSE has been sent |
| SendAfterClose.CloseIsSafe | hello_world/components/libssh2/src/channel.c:2566-2582 | before the call: a close puts nothing behind a CLOSE, for every outcome of its sends, if and only if it is not the case that CLOSE is out with EOF unsent and the channel not marked closed |
| SendAfterClose.WriteIsSafeAfterClose | hello_world/components/libssh2/src/channel.c:2269-2380 | before the call: a write on a channel not marked closed does so if and only if it is not the case that CLOSE is out and a write is pending or EOF unsent |
| SendAfterClose.FinalStays | hello_world/components/libssh2/src/channel.c:2277-2285 | with no write pending and EOF sent or the channel marked closed, no step but an explicit EOF sends data or EOF, and that stays so |
| SendAfterClose.CloseIsLastExactly | hello_world/components/libssh2/src/channel.c:2251-2642 | once CLOSE is out, nothing follows it in any continuation without an explicit EOF if and only if no write is pending and EOF has been sent or the channel is marked closed |
| SendAfterClose.EofFollowsClose | hello_world/components/libssh2/src/channel.c:2573-2624 | an input that breaks it: EOF fails hard, CLOSE goes out, the wait would block, and the next call of close sends EOF |
| SendAfterClose.DataFollowsClose | hello_world/components/libssh2/src/channel.c:2277-2380 | another: after that first call any write, begun afresh or repeated, that finds credit sends its data after the CLOSE |
| CloseWait.AwaitEnds | hello_world/components/libssh2/src/channel.c:2618-2624 | the wait for the peer's CLOSE is decided by the first read that brings CLOSE, a nonzero result or a disconnection |
| CloseWait.ClosedWithoutPeer | hello_world/components/libssh2/src/channel.c:2561-2642 | close marks the channel closed without the peer's CLOSE if and only if it gives up: conditions on the outcomes of its sends and on that first read |
| CloseWait.OtherMessageEndsWait | hello_world/components/libssh2/src/channel.c:2618-2642 | an input: any other message, whose type the read returns, ends the wait with 0 and the channel marked closed |
| ChannelSend.Sender.Write | hello_world/components/libssh2/src/channel.c:2251-2383 | the method on the channel's fields computes the write on values, for every outcome |
| ChannelSend.Sender.SendEof | hello_world/components/libssh2/src/channel.c:2410-2434 | sends EOF and sets the flag only on success |
| ChannelSend.Sender.SendCloseMessage | hello_world/components/libssh2/src/channel.c:2587-2616 | builds CLOSE once and sends it unless an earlier call did |
| ChannelSend.Sender.WaitForClose | hello_world/components/libssh2/src/channel.c:2618-2624 | reads until the peer's CLOSE, an error or a disconnected socket |
| ChannelSend.Sender.Close | hello_world/components/libssh2/src/channel.c:2561-2642 | the resumable close, for every outcome of its sends and reads |
| ChannelIds.NextIdFresh | hello_world/components/libssh2/src/channel.c:61-87 | the id handed out is new if and only if every open channel's id is below the counter and the counter's value is not waiting in a listener's queue |
| ChannelIds.Session.NextId | hello_world/components/libssh2/src/channel.c:61-87 | the largest of the counter and the open ids; the counter moves behind it, modulo 2^32 |
| ChannelIds.FindFinds | hello_world/components/libssh2/src/channel.c:100-118 | lookup finds an owner if there is one, and the only one when ids are distinct |
| ChannelIds.Session.Locate | hello_world/components/libssh2/src/channel.c:94-121 | the nested loops find the first owner in the channel list, then in the listeners' queues |
| ChannelIds.FindPermuted | hello_world/components/libssh2/src/channel.c:753-764 | lookup does not depend on where distinctly numbered channels are linked |
| ChannelIds.Session.FreshId | hello_world/components/libssh2/src/channel.c:61-87 | until the counter runs out, a session with distinct ids below it gets an id no live channel has |
| ChannelIds.Session.Open | hello_world/components/libssh2/src/channel.c:181-188 | opening keeps ids distinct and below the counter, which moves on by one; the new channel is found by its id and no other lookup changes |
| ChannelIds.Session.QueueConnection | hello_world/components/libssh2/src/packet.c:132-245 | a connection gets a channel with a new id at the first call, unless it is refused, and is linked once its confirmation has gone out; in between calls may end with EAGAIN and anything else may happen to the session, and the id stays new |
| ChannelIds.Session.ForwardAccept | hello_world/components/libssh2/src/channel.c:753-764 | moving the oldest pending channel to the session's list keeps the set of channels and changes no lookup |
| ChannelIds.Session.Unlink | hello_world/components/libssh2/src/channel.c:2787-2787 | freeing any live channel, open or pending in a listener's queue, takes it and nothing else out and changes no other lookup |
| ChannelIds.Session.AddListener | hello_world/components/libssh2/src/channel.c:577-581 | a new listener starts with an empty queue and the given maximum, and changes no lookup |
| ChannelIds.Session.CancelListener | hello_world/components/libssh2/src/channel.c:699-711 | the channels of a listener's queue are freed one by one until one would block; when all are, the listener goes as well; ids stay distinct and other lookups unchanged |
| Base64.DecodeInvertsEncode | hello_world/components/libssh2/src/misc.c:299-423 | decoding undoes encoding for every byte string |
| Base64.EncodeShape | hello_world/components/libssh2/src/misc.c:372-423 | the encoded length is four characters for every three bytes begun, all from the alphabet or padding |
| Base64Laws.TableIs | hello_world/components/libssh2/src/misc.c:346-347 | the alphabet by character codes |
| Base64Laws.EncodeThreeIs | hello_world/components/libssh2/src/misc.c:378-417 | three bytes give the four characters whose values spell the same number |
| Base64Laws.EncodeRestIs | hello_world/components/libssh2/src/misc.c:378-417 | what is left of one or two bytes is filled up with zeros, and their characters are replaced by the padding |
| Base64Laws.DecodeSkips | hello_world/components/libssh2/src/misc.c:311-314 | the decoder passes over everything outside the alphabet |
| Base64Laws.DecodeFails | hello_world/components/libssh2/src/misc.c:333-339 | decoding fails if and only if the characters of the alphabet leave a single one over |
| Base64Laws.BytesOfFour | hello_world/components/libssh2/src/misc.c:315-330 | four values give the three bytes that spell the same number |
| Base64.EncodeBytes | hello_world/components/libssh2/src/misc.c:367-423 | the encoder's loop writes the groups of four characters with their padding |
| Base64.DecodeString | hello_world/components/libssh2/src/misc.c:299-351 | the decoder's four-phase loop gives the bytes of the meaningful characters, or fails when one value is left over |
| KnownHostStore.KnownHosts.Add | hello_world/components/libssh2/src/knownhost.c:133-262 | knownhost_add appends the entry it is asked for, or leaves the list alone and returns the code |
| KnownHostCodes.AddCodes | hello_world/components/libssh2/src/knownhost.c:147-222 | exactly when adding fails, and with which code |
| KnownHostCodes.AddedIs | hello_world/components/libssh2/src/knownhost.c:157-252 | what is added is what was given, decoded or encoded, with the type name only for a type that needs it |
| HostNames.SplitInvertsJoin | hello_world/components/libssh2/src/knownhost.c:621-668 | splitting the comma-join of non-empty comma-free names from the right gives exactly these names, last to first |
| HostNames.SplitsToItself | hello_world/components/libssh2/src/knownhost.c:636-665 | a text stands for the single name it spells if and only if it has no comma before its last character |
| HostNames.JoinedNamesAreAdded | hello_world/components/libssh2/src/knownhost.c:615-669 | a host part with several names that fit the buffer adds each of them once, last to first, and nothing else |
| HostNames.AddNamesCounts | hello_world/components/libssh2/src/knownhost.c:643-660 | the names are all added if and only if each fits the buffer |
| KnownHostStore.KnownHosts.OldstyleHostline | hello_world/components/libssh2/src/knownhost.c:615-669 | the right-to-left cursor loop adds the names of the split until one is too long |
| KnownHostStore.KnownHosts.HashedHostline | hello_world/components/libssh2/src/knownhost.c:672-727 | a marked host part adds the decoded hash and salt, or fails on lengths or encoding, or is ignored without a second bar |
| KnownHostStore.SplitKey | hello_world/components/libssh2/src/knownhost.c:752-818 | the cursor loops over the key part find type, type name, key and comment |
| KnownHostStore.KnownHosts.Hostline | hello_world/components/libssh2/src/knownhost.c:739-841 | a split line adds what its parts say |
| KnownHostStore.SplitHost | hello_world/components/libssh2/src/knownhost.c:893-911 | the loops over the host and the blanks behind it |
| KnownHostStore.KnownHosts.Readline | hello_world/components/libssh2/src/knownhost.c:872-941 | reading a line changes the collection and returns the code as specified; other file types are refused |
| KnownHostStore.LineLength | hello_world/components/libssh2/src/knownhost.c:1060-1118 | the length that is added up before printing is that of the line with the whole comment |
| KnownHostStore.ShownLength | hello_world/components/libssh2/src/knownhost.c:1060-1134 | that is the length of what is printed if and only if the comment holds no zero; else what is printed is shorter |
| KnownHostStore.Format | hello_world/components/libssh2/src/knownhost.c:1090-1134 | each of the formats prints the specified line, with the comment cut at its first zero |
| KnownHostStore.PrintHost | hello_world/components/libssh2/src/knownhost.c:1067-1088 | the host as it is printed, or nothing when a hash or salt encodes to nothing |
| KnownHostStore.Writeline | hello_world/components/libssh2/src/knownhost.c:997-1156 | writes the line and its zero if the length counted fits and nothing otherwise; outlen is that length in both cases; other file types, types without a name and hosts that encode to nothing are refused |
| KnownHostRoundTrip.ReadUndoesWrite | hello_world/components/libssh2/src/knownhost.c:739-1156 | reading the printed line appends exactly the printed entry if and only if the entry is storable: conditions on its name, key, type and comment that can be checked beforehand |
| KnownHostRoundTrip.SplitLine | hello_world/components/libssh2/src/knownhost.c:872-936 | how any line with a visible host falls into host and key part |
| KnownHostRoundTrip.ParsePrinted | hello_world/components/libssh2/src/knownhost.c:752-818 | the printed key part of a storable entry parses to its type, type name, key and comment |
| KnownHostRoundTrip.TypeNames | hello_world/components/libssh2/src/knownhost.c:777-792 | which key type a key part with each of the six type names gets, and with which name an entry of that type is printed |
| KnownHostRoundTrip.ParsedIsStorable | hello_world/components/libssh2/src/knownhost.c:752-818 | whatever key part was read, the fields that come out are storable |
| KnownHostRoundTrip.HashedRead | hello_world/components/libssh2/src/knownhost.c:672-727 | a printed hash and salt are read back if and only if both fit the parser's buffers |
| KnownHostRoundTrip.PlainRead | hello_world/components/libssh2/src/knownhost.c:615-669 | a printed plain name is read back as itself if and only if it has no inner comma and is shorter than 255 |
| KnownHostCodes.NothingOnLine | hello_world/components/libssh2/src/knownhost.c:884-891 | a blank line, and one whose first visible character is a newline or begins a comment, adds nothing and succeeds |
| KnownHostCodes.ShortLineIsRefused | hello_world/components/libssh2/src/knownhost.c:752-756 | a line without a key part, or with one shorter than twenty characters, is refused |
| KnownHostCodes.LongNameStops | hello_world/components/libssh2/src/knownhost.c:643-660 | the first name that does not fit the buffer stops the names, and those before it stay |
| KnownHostRoundTrip.Rsa1CommentJoinsKey | hello_world/components/libssh2/src/knownhost.c:758-768 | a comment on an RSA1 entry comes back as part of its key |
| KnownHostRoundTrip.PrefixIsTakenForKnown | hello_world/components/libssh2/src/knownhost.c:779-792 | an unknown type name that begins a known one comes back as the known type |
| KnownHostRoundTrip.ShortNameIsDropped | hello_world/components/libssh2/src/knownhost.c:821-840 | a plain name of one or two characters is dropped without an error when the line has no bar |
| KnownHostRoundTrip.NamesLineAddsEach | hello_world/components/libssh2/src/knownhost.c:821-831 | a whole line with several names adds one entry for each |
| KnownHostRoundTrip.PrintedIsLine | hello_world/components/libssh2/src/knownhost.c:1090-1134 | what is printed is one line, ended by its only newline |
| KnownHostFile.ReadFileUndoesWriteFile | hello_world/components/libssh2/src/knownhost.c:953-1235 | reading a written file adds exactly the written entries, in order, and returns their number |
| KnownHostCodes.FgetsIs | hello_world/components/libssh2/src/knownhost.c:965-968 | a line is read with its newline, at most 4091 characters at a time |
| KnownHostCodes.RefusedLineStops | hello_world/components/libssh2/src/knownhost.c:968-983 | the first line that is refused ends the reading with -46, and what was added stays |
| KnownHostCodes.GoodLineCounts | hello_world/components/libssh2/src/knownhost.c:968-983 | every other line counts as one and the reading goes on behind it |
| KnownHostFile.Readfile | hello_world/components/libssh2/src/knownhost.c:953-985 | the fgets loop reads line after line, counts them and stops at the first that fails |
| KnownHostFile.Writefile | hello_world/components/libssh2/src/knownhost.c:1191-1235 | succeeds if and only if every entry has a line that fits the buffer; the file holds the lines in order up to the first that has none, when no comment holds a zero |
| KnownHostCheck.Check | hello_world/components/libssh2/src/knownhost.c:350-491 | the result is the declared lookup: MATCH with the first (pass, position) entry of equal host, type and key, else MISMATCH with the first of equal host and type, else NOTFOUND |
| KnownHostCheck.Search | hello_world/components/libssh2/src/knownhost.c:407-479 | the loop over one or two names, badkey remembered across them, computes that lookup |
| KnownHostCheck.Pass | hello_world/components/libssh2/src/knownhost.c:408-476 | one pass finds the first exact entry, or else leaves the first candidate as badkey |
| KnownHostCheck.AnswerIsUnique | hello_world/components/libssh2/src/knownhost.c:350-491 | the declared lookup has one answer |
| KnownHostCheck.ExactHolds | hello_world/components/libssh2/src/knownhost.c:441-481 | MATCH if and only if some entry agrees in all three, NOTFOUND if and only if none agrees in host and type |
| KnownHostCheck.MatchOfParts | hello_world/components/libssh2/src/knownhost.c:350-491 | a collection matches if and only if one of its parts does, so adding entries never turns a MATCH into anything else |
| KnownHostCheck.AddedIsFound | hello_world/components/libssh2/src/knownhost.c:133-491 | a plain host added with a known type is found with its key, with or without a port |
| KnownHostCheck.AddedHashIsFound | hello_world/components/libssh2/src/knownhost.c:133-491 | so is one added as the base64 of the keyed hash of its name |
| KnownHostPort.DecimalSpells | hello_world/components/libssh2/src/knownhost.c:373 | a port is spelled in decimal digits without a zero in front |
| KnownHostPort.NamesAre | hello_world/components/libssh2/src/knownhost.c:371-386 | with a port the bracketed name with it is looked for first and then the plain one, else the plain one alone; the check fails exactly when the bracketed name is 270 characters or longer |
| KnownHostPort.AddedWithPortIsFound | hello_world/components/libssh2/src/knownhost.c:133-491 | a host added under its bracketed name and port is found with its key |
| KnownHostPort.PortComesFirst | hello_world/components/libssh2/src/knownhost.c:407-479 | and is handed out, or an earlier entry for the bracketed name, even when the plain name has an entry with the key |
| KnownHostPort.PlainOnly | hello_world/components/libssh2/src/knownhost.c:380-386 | without a port an answer names an entry of exactly the host asked for, of the type asked for, and with the key if and only if it is a match |
| KnownHostPort.EitherName | hello_world/components/libssh2/src/knownhost.c:407-479 | with a port an answer names an entry of one of the two names |
| Arrival.RecvSplits | hello_world/main/src/ota_server_task.c:142 | a receive takes the front of what is to come, and nothing only at the end or without room |
| OtaServer.UpdateAccounts | hello_world/main/src/ota_server_task.c:140-268 | at every return flash followed by buffer is a prefix of the stream, and the code tells what stopped the loop |
| OtaServer.UpdateImage | hello_world/main/src/ota_server_task.c:140-264 | after a clean end the flash holds the whole stream or nothing: the stream if and only if it is empty, or a receive with room follows the one that completes the header |
| OtaCodes.UpdateCode | hello_world/main/src/ota_server_task.c:140-285 | the code of every update, and what it tells of the flash, from the pieces that arrive and the answers of the device |
| OtaCodes.RejectedHeaderStops | hello_world/main/src/ota_server_task.c:156-185 | -5 if and only if the header completes and is rejected, and then nothing is written |
| OtaCodes.RefusedBeginStops | hello_world/main/src/ota_server_task.c:187-200 | -6 if and only if the header passes and the flash refuses to begin, and then nothing is written |
| OtaCodes.RefusedWriteStops | hello_world/main/src/ota_server_task.c:140-264 | -7 if and only if a write the loop reaches is refused, and then everything before the first such write is in flash |
| OtaServer.GoodUpdateSucceeds | hello_world/main/src/ota_server_task.c:140-285 | with a device that accepts everything, in that case the update returns 0 with the whole image written |
| OtaServer.FullBufferLosesImage | hello_world/main/src/ota_server_task.c:142-146 | an update whose first piece fills the buffer ends with nothing written, whatever else was to come and however the connection ends |
| OtaServer.LastPieceLosesImage | hello_world/main/src/ota_server_task.c:156-238 | after a clean end nothing is written when the header is completed by the stream's last piece, however many pieces there are, or never |
| OtaServer.RunAccounts | hello_world/main/src/ota_server_task.c:140-264 | from any state the loop neither loses, repeats nor reorders bytes |
| OtaServer.RunImage | hello_world/main/src/ota_server_task.c:140-264 | from any state reached, what a clean end leaves in flash |
| OtaServer.RunStops | hello_world/main/src/ota_server_task.c:140-285 | why the loop stops, code by code |
| OtaServer.Handle | hello_world/main/src/ota_server_task.c:156-245 | the header check or the write of the whole buffer, with the counters kept in step |
| OtaServer.ReceiveOnce | hello_world/main/src/ota_server_task.c:140-263 | one turn of the loop over the one buffer |
| OtaServer.DoRetransmit | hello_world/main/src/ota_server_task.c:83-290 | the loop over the buffer computes the specified run; data_read stays within the buffer and binary_file_length is the number of bytes written |
| IrTransmitter.TimelyRunsEmitMessages | hello_world/main/src/ir_led_task.c:72-134 | in every interleaving of ticks and task steps in which the task is in time, bits sent and still to be sent are the popped messages most significant bit first, in order, each behind fewer than 8 zeros |
| IrTransmitter.TimelyRunsAreReceived | hello_world/main/src/ir_led_task.c:72-134 | a receiver that knows each message's length and its number of leading zero bits gets all messages back after every timely run |
| IrTransmitter.BlinkShiftFramesAreReceived | hello_world/main/src/infoglobe_animations.c:27-46 | frames of string_with_blink_shift come back to a receiver that knows only their lengths, whatever text and indices they carry |
| IrTransmitter.HeaderFiveShape | hello_world/main/src/infoglobe_animations.c:34-40 | every frame with the header 5 has exactly five zero bits before its first set bit |
| IrTransmitter.HeaderZeroShape | hello_world/main/src/message_type.c:44-65 | a frame with the header 0 and a text that starts with a letter has nine |
| IrTransmitter.SignalIsReceived | hello_world/main/src/ir_led_task.c:115-134 | the signal of any messages decodes to them, whatever the gaps and whatever follows |
| IrTransmitter.RunsInStep | hello_world/main/src/ir_led_task.c:72-134 | the invariant that ties indices, remaining length, gap and bits holds over every timely run |
| IrTransmitter.RestOfTick | hello_world/main/src/ir_led_task.c:117-133 | a tick sends the first of the bits that are left |
| IrTransmitter.UnsentMessage | hello_world/main/src/ir_led_task.c:92-100 | a freshly loaded message is to be sent as its bytes' bits, most significant first |
| IrTransmitter.TimelyMeansInStep | hello_world/main/src/ir_led_task.c:72-134 | a run is timely if and only if that invariant holds after every one of its prefixes |
| IrTransmitter.SeenInTime | hello_world/main/src/ir_led_task.c:75-76 | the task finds the length at zero if and only if fewer than eight ticks have gone by since the end of the message |
| IrTransmitter.LateForever | hello_world/main/src/ir_led_task.c:74-110 | once the length is below zero the task never loads another message |
| BitOrder.ByteOfBits | hello_world/main/src/ir_led_task.c:118 | the eight bits of a byte, taken with their weights, are the byte |
| IrTransmitter.Transmitter.TimerCallback | hello_world/main/src/ir_led_task.c:115-134 | the callback sends the current bit and moves the indices |
| IrTransmitter.Transmitter.LookAtLength | hello_world/main/src/ir_led_task.c:74-76 | the task goes on only when the length is zero |
| IrTransmitter.Transmitter.StopTimer | hello_world/main/src/ir_led_task.c:78-81 | then the timer is stopped |
| IrTransmitter.Transmitter.Load | hello_world/main/src/ir_led_task.c:86-103 | a message replaces the old one in the zeroed buffer and the timer starts again |

## Left out

- Blowfish.Context: 32-bit words are integers below 2^32, shifts and masks are divisions and remainders, and exclusive
  or is defined bit by bit; the two-dimensional S-box array is one table of 1024 words, and the loops that step by two
  entries count pairs.
- Blowfish.Context.CbcEncryptInPlace: the caller's IV must not be the buffer itself, and a length that is not a multiple
  of 8 needs room for the rounded-up length, because the code touches that much.
- Blowfish.Context.CbcDecryptInPlace: lengths below 8 are excluded, for which the code computes pointers before the
  buffer.
- The constants of the S-boxes and subkeys: the initial context is arbitrary, so every result holds for them too.
- BcryptPbkdf.Pbkdf: SHA-512 is an arbitrary function to 64 bytes; failing allocation and the erasing of keys are not
  modelled; the block number and the lengths are within 32 bits because the key length is bounded.
- KnownHostCheck.Check: HMAC-SHA1 is an arbitrary function; the entry handed out is its position in the list.
- Packets, known hosts and queue entries are values in sequences that the classes reassign: unlinking list nodes, their
  memory and aliasing between them are not modelled. Channels and listeners in `ChannelIds` are objects.
- ReceiveCredit.RunsConserveWindow: stated for runs in which no sum of window sizes wraps around at 32 bits; RunsAccount
  says what happens with sends that block or fail.
- ReceiveInvariant.ReadKeepsWindowOpen: stated for windows and buffers whose sums fit 32 bits; the code wraps otherwise.
- ChannelReceive.Receiver.PacketAdd: the ignore mode for extended data, which refunds the window instead of queueing, is
  not modelled, nor are messages other than data, EOF and CLOSE.
- ChannelReceive.Receiver.Read: size_t has 32 bits, as on the device; the transport is a list of arrivals and a final
  code; `libssh2_channel_read_ex`, which retries and widens the window first, is not modelled.
- ChannelSend.Sender.Write: a caller must retry with at least the bytes it was told to retry with; the messages' bytes
  are the event history, not the encoded headers.
- SendAfterClose.CloseIsLastExactly: a continuation in which the caller asks for EOF itself is not covered: nothing
  keeps that EOF from following the CLOSE, as ExecAfterClose says.
- ChannelIds.Session.Open: waiting for the peer's confirmation and its failure are not modelled; a failure unlinks the
  channel as Unlink does.
- ChannelIds.Session.QueueConnection: which listener a connection is for, and the message that refuses it, are not
  modelled.
- ChannelIds.Session.CancelListener: the cancel request and its sending are not modelled, nor is a send of CLOSE; which
  channels free without blocking is a number given by the caller.
- KnownHostStore.KnownHosts.Add: names, encoded keys and type names are taken as the strings they are for the C library,
  without a zero; what memory holds behind a raw key of length zero is a parameter.
- KnownHostStore.Writeline: what memory holds where an empty hash or salt is kept is a parameter.
- KnownHostStore.KnownHosts.Readline: a line holds no zero and a newline only at its end, which is what the file loop
  passes; failing allocation is not modelled.
- KnownHostFile.Writefile: what the file holds when a comment has a zero in it is not stated, since bytes left in the
  buffer follow the line then; opening, closing and failing writes of files are not modelled; a file is its text.
- Deleting entries, walking the list and the external entry structure of the known-hosts interface: one-line list
  operations.
- OtaServer.DoRetransmit: the partition queries before the loop, the ACK sent after each receive and the display are not
  modelled; the version check is an arbitrary predicate of the header bytes, whose size is a parameter.
- IrTransmitter.TimelyRunsAreReceived: the receiver knows each message's length and how many zero bits it begins with,
  since a gap of zeros cannot be told from a message that begins with zeros.
- IrTransmitter.LateForever: the 32-bit length is not followed through its wrap-around after 2^31 bytes.
- `_libssh2_channel_flush`: its refund counts a fixed header size for both kinds of packets and is repeated on re-entry,
  so no conservation law holds for it.
- The channel's request builders (environment, terminal, X11, agent, start-up): one simple state machine each.
- The transport, cryptography other than Blowfish and the derivation, compression, agents, the Qt interface, Wi-Fi and
  clock setup and the display animations.
