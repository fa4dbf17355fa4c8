# Verified models of nogocommons

The base library of a Bitcoin-style chain carries several components whose correctness does not
show in any one function. Each is modelled here in Dafny, in the form its source has, and proved.

* **Transactions and blocks** (`Bytes`, `Codecs`, `TxCodec`, `TxLimits`, `TxDecoder`, `TxEncoder`,
  `BlockCodec`, `BlockDecoder`, `BlockCache`): witness serialization (BIP 144, section "Serialization"), the
  decoder with its script slab and repacking, and hashes computed by cutting raw block bytes.
* **Peer send pipeline** (`PeerPipeline`, `PeerDelivery`): two handlers joined by capacity-one
  channels, as a state machine over all interleavings and shutdown, and what it delivers.
* **Addresses** (`Bech32Checksum`, `Bech32`, `Bech32Part`, `Bech32Loops`, `ConvertBits`, `Segwit`,
  `Radix`, `Base58`, `Base58Loops`, with `Sequences`): the checksum over GF(2) of BIP 173 and BIP 350,
  bit regrouping, and chunked radix conversion.
* **Database** (`KeyOrder`, `MergedView`, `DirectionChange`, `DbIterator`, `DbCache`, `BlockFiles`,
  `BlockStore`, `Reconcile`): the write-back cache, the merged iterator, flat block files with
  pruning and rollback, and crash repair.
* **Encrypted transport** (`Ciphers`, `Transport`, `TransportPeer`, with `PowersOfTwo`): rekeying
  ciphers in lockstep (BIP 324, sections on packet encryption and the rekeying wrappers).
* **Address manager** (`AddrBook`, `AddrManager`) and **connection manager** (`ConnManager`,
  `ConnProgress`).
* **NogoPow** (`FixedMatrix`, `BlockedMatrix`, `MatrixChain`, `Floats`, `Difficulty`,
  `DifficultyValue`): blocked fixed-point matrix products and the difficulty controller with its
  floating-point rounding.

Where code loops or changes state, the model does too, and each method is proved against a function
of its input or old state; the properties are then lemmas about those functions. Concurrency is
modelled as steps in any order. Hashes, ciphers, checksums over files, clocks, randomness and
input/output errors are parameters, so that every result holds whatever they are; the only laws
assumed are that opening a sealed text gives it back and that floating-point results are rounded to
a nearest number of their precision.

Where the code does not do what its documentation suggests, the model follows the code:

* `Block.Transactions` computes wrong slices when an earlier transaction was already wrapped.
* A version 1 witness program of twenty bytes is decoded as a version 0 key hash.
* Garbage of 4095 bytes, which the sender may choose, is never recognized by the receiver.
* A database iterator that changes direction can skip entries.
* Closing a block file on its own leaves it in the list of recently used files.
* Crash repair fills a short earlier block file with zeros and reports success.
* A missing block file stops crash repair half-way, and the database opens all the same.
* A request dropped for lack of need still reports itself as established.
* A request that fails without an address source, and is not permanent, stays pending with nothing
  under way for it.
* A known address takes over an older time when the sighting brings a new service.
* The deadband of the difficulty controller does not enforce the minimum difficulty.
* A difficulty clamped to twice the parent's comes out one higher for parents from 2^44 to 2^63.
* The second checksum in a bech32 error holds both checksums.
* A message queued while a peer shuts down can stay unsignalled.

Each of these is shown by a member listed below, on a concrete input, a reachable state or a whole
family of inputs, and the general result beside it states when the expected behaviour holds.

Verify with `dafny verify dfyconfig.toml`.

## Model

| member | source | states |
|---|---|---|
| Codecs.VarIntSound | wire/common.go:500-555 | whatever the variable-length integer reader accepts is the writer's encoding of the value read, so every non-minimal form is rejected |
| Codecs.VarIntComplete | wire/common.go:571-623 | every 64-bit value is read back from its encoding whatever follows, and the size function equals the encoded length |
| Codecs.ManySound | wire/msgtx.go:542-557 | reading n elements in a row, for any element codec that is sound, consumes exactly the encodings of admissible elements within the slab budget |
| Codecs.ManyComplete | wire/msgtx.go:542-557 | n admissible elements within the slab budget are read back from their encodings |
| Codecs.CountedSound | wire/msgtx.go:559-588 | a counted list that is accepted is the encoding of a list within the count limit and the slab budget |
| Codecs.CountedComplete | wire/msgtx.go:559-588 | every counted list within the limits is read back from its encoding |
| Codecs.CountedSized | wire/msgtx.go:846-862 | the size of a counted list is the length of its encoding |
| TxCodec.ScriptLawful | wire/msgtx.go:1024-1056 | script reading accepts exactly encodings of scripts within the script limit and the slab |
| TxCodec.InLawful | wire/msgtx.go:1066-1114 | the same for inputs, with their exact size |
| TxCodec.OutLawful | wire/msgtx.go:1129-1174 | the same for outputs, with their exact size |
| TxCodec.StackLawful | wire/msgtx.go:597-624 | the same for witness stacks |
| TxCodec.DecodeSound | wire/msgtx.go:494-698 | whatever the transaction decoder accepts, in either encoding, re-encodes to exactly the bytes consumed and is within every limit: decoding is canonical |
| TxCodec.DecodeComplete | wire/msgtx.go:494-698 | every transaction within the count, script and slab limits that the encoding can express is decoded back from its encoding, whatever bytes follow |
| TxLimits.LimitsExact | wire/msgtx.go:494-624 | the limits of the decoder in plain numbers: at most 818401 inputs and 3728271 outputs, four million bytes a script or witness item, four million items a witness, and 4194304 bytes of all of them together |
| TxCodec.BaseSizeExact | wire/msgtx.go:846-862 | the base size is the length of the base serialization |
| TxCodec.SerializeSizeExact | wire/msgtx.go:865-880 | the full size is the number of bytes the witness encoder writes |
| TxCodec.CutWitnessIsBase | nogoutil/tx.go:43-109 | cutting marker, flag and witnesses out of a witness serialization leaves exactly the base serialization |
| TxDecoder.ReadVarInt | wire/common.go:500-555 | the reader method returns and consumes what the specification of variable-length integers says, errors included |
| TxDecoder.ReadScript | wire/msgtx.go:1024-1056 | a script is read into the free part of the slab and nothing before it changes |
| TxDecoder.ReadIn | wire/msgtx.go:1066-1090 | one input, its script left in the slab |
| TxDecoder.ReadOut | wire/msgtx.go:1129-1146 | one output, its script left in the slab |
| TxDecoder.ReadIns | wire/msgtx.go:542-557 | the input loop fills the slab contiguously and agrees with the specification |
| TxDecoder.ReadOuts | wire/msgtx.go:574-588 | the output loop, likewise |
| TxDecoder.ReadStack | wire/msgtx.go:597-624 | one witness stack, likewise |
| TxDecoder.ReadStacks | wire/msgtx.go:592-632 | a witness stack for each input, changing nothing else about the inputs |
| TxDecoder.PackSlice | wire/msgtx.go:655-666 | one script is copied behind those already packed and reads the same there |
| TxDecoder.PackIns | wire/msgtx.go:653-682 | all input scripts and witness items are packed and the final offset is their total |
| TxDecoder.Pack | wire/msgtx.go:653-695 | the slab-to-contiguous copy preserves every script, and the scripts fill the buffer exactly |
| TxDecoder.BtcDecode | wire/msgtx.go:494-698 | the decoder with its slab, reslicing and repacking has the verdict, the transaction and the remaining bytes of the specification on every input |
| TxEncoder.WriteVarInt | wire/common.go:571-600 | appends exactly the specified encoding |
| TxEncoder.WriteVarBytes | wire/common.go:770-780 | appends length and bytes |
| TxEncoder.WriteTxIn | wire/msgtx.go:1094-1114 | appends the encoding of an input |
| TxEncoder.WriteTxOut | wire/msgtx.go:1164-1174 | appends the encoding of an output |
| TxEncoder.WriteWitness | wire/msgtx.go:1180-1195 | appends the encoding of a witness stack |
| TxEncoder.ScanWitness | wire/msgtx.go:805-815 | the scan that stops early finds a witness exactly when some input has one |
| TxEncoder.BtcEncode | wire/msgtx.go:737-801 | the encoder appends exactly the specified encoding of the transaction |
| TxEncoder.CountBase | wire/msgtx.go:846-862 | the size loops compute the base size |
| TxEncoder.CountTx | wire/msgtx.go:865-880 | the size loops compute the full size |
| BlockCodec.BlockSound | wire/msgblock.go:78-115 | whatever the block decoder accepts re-encodes to exactly the bytes consumed |
| BlockCodec.BlockComplete | wire/msgblock.go:78-115 | every block within the limits is decoded back from its encoding |
| TxLimits.BlockLimitsExact | wire/msgblock.go:78-115 | a block fits if and only if it has at most 400001 transactions and each of them fits and has an input |
| BlockCodec.BlockSizeExact | wire/msgblock.go:257-267 | the block size is the encoded length |
| BlockCodec.TxSliceExact | wire/msgblock.go:149-196 | the bytes at a transaction's computed location are its own serialization, whatever follows the block |
| BlockCodec.TxOffsetNext | wire/msgblock.go:149-196 | locations are adjacent |
| BlockDecoder.DeserializeTxLoc | wire/msgblock.go:149-196 | decodes as the block decoder does, and the locations measured from what the reader consumed are the computed ones |
| BlockCache.WrappedTx.HasWitness | nogoutil/tx.go:137-145 | the memoised answer is the transaction's, and it is remembered |
| BlockCache.WrappedTx.Hash | nogoutil/tx.go:43-109 | the memoised identifier, computed by cutting raw bytes when there are any, is the hash of the transaction's own base serialization |
| BlockCache.WrappedTx.WitnessHash | nogoutil/tx.go:115-131 | the memoised witness identifier is the hash of the transaction's own witness serialization |
| BlockCache.WrappedBlock.Bytes | nogoutil/block.go:53-70 | returns the cached bytes if there are any and otherwise serializes and caches |
| BlockCache.WrappedBlock.Tx | nogoutil/block.go:114-138 | fails exactly outside the range; otherwise wraps on first use, without raw bytes, and keeps all other entries |
| BlockCache.WrappedBlock.Transactions | nogoutil/block.go:144-189 | keeps every entry already wrapped and gives each other entry the slice at the offset summed over the entries that were not wrapped |
| BlockCache.NewBlockFromBytes | nogoutil/block.go:250-264 | for every byte string the decoder accepts, every wrapped transaction carries exactly its own witness serialization, so both fast hashes are right |
| BlockCache.SliceOffsetBound | nogoutil/block.go:164-184 | the slice offset of an entry is right if and only if no entry before it was wrapped already, and is too small otherwise |
| BlockCache.FreshSliceExact | nogoutil/block.go:164-184 | with nothing wrapped before it an entry gets exactly its own serialization |
| BlockCache.SkippedEntryShiftsSlice | nogoutil/block.go:164-184 | after wrapping the first of two transactions of equal size, the second gets the first one's bytes |
| BlockCache.SkippedEntryExample | nogoutil/block.go:164-184 | a concrete block whose second transaction gets the bytes of the first, which are not its own |
| BlockCache.SkippedEntryRun | nogoutil/block.go:114-189 | asking for the first transaction, then the bytes, then all transactions of that block leaves the second with the first one's bytes |
| BlockCache.CachedBytesExact | nogoutil/block.go:250-264 | the cached bytes are the block's serialization if and only if nothing followed the block |
| PeerPipeline.ReachableInvariant | peer/peer.go:1628-1851 | in every interleaving: at most one of queued item, item being written and completion token exists; none and no pending message when the queue handler is not waiting; nothing accepted is lost, duplicated or reordered; completions signalled plus completions owed are those of the messages taken |
| PeerPipeline.SendsNeverBlock | peer/peer.go:1644-1668 | sends on the two capacity-one channels never find them full |
| PeerPipeline.WireIsPrefix | peer/peer.go:1786-1834 | what was written is a prefix of what was accepted, and callers' messages go out as a prefix of the order they were enqueued in |
| PeerPipeline.SignalledExactlyOnce | peer/peer.go:1735-1759 | once both handlers are done, the completions signalled are exactly, with multiplicity, those of the messages the queue handler took |
| PeerPipeline.HandlersQuiesce | peer/peer.go:1628-1851 | from any state the two handlers can take only a bounded number of steps without new input |
| PeerPipeline.ShutdownCompletes | peer/peer.go:1731-1851 | after the quit channel is closed, a state where no handler can move has both handlers finished and every completion signalled once |
| PeerPipeline.LateMessageIsLost | peer/peer.go:1889-1903 | a message enqueued after the final drain is reachable, stays in the queue and is never signalled |
| PeerPipeline.TakenIffQueuedInTime | peer/peer.go:1731-1766 | for every reachable state and every continuation in which the queue handler finishes, a message queued then is taken, at its own place, if and only if the handler had not finished at the call, and once both handlers are done exactly the taken messages are signalled |
| PeerDelivery.InventoryConserved | peer/peer.go:1675-1729 | in every reachable state the inventory is accounted for in order: of what was taken up with the version known, every block is in an accepted message of its own, and of the rest the items of accepted messages, then the batch being filled, are exactly those the peer was not found to know, and the trickle queue is what has not been looked at |
| PeerDelivery.TrickleFills | peer/peer.go:1704-1729 | a trickle message of fewer than a thousand items is made only when the trickle queue is empty, and ends the loop |
| PeerDelivery.RestMeansWritten | peer/peer.go:1628-1851 | a connected pipeline in which no handler can move has written all it accepted: every queued message in order, every block taken up, and all other inventory the peer did not know but for what waits for the next tick |
| PeerDelivery.TickEmpties | peer/peer.go:1695-1729 | after a tick, whatever else happens, a connected pipeline that has come to rest has looked at everything that was waiting to trickle |
| PeerDelivery.QuietTick | peer/peer.go:1695-1702 | while disconnecting a tick sends nothing |
| PeerDelivery.ChannelsBounded | peer/peer.go:2396-2399 | the channels from outside hold fifty and take more exactly when there is room |
| PeerDelivery.SendsOne | peer/peer.go:1628-1851 | a queued message can be written and signalled with the peer connected and the handlers waiting again |
| Bech32Checksum.StepLinear | address/bech32/bech32.go:78-86 | the checksum step is linear over GF(2) |
| Bech32Checksum.StepInjective | address/bech32/bech32.go:78-86 | the step is injective on thirty-bit states |
| Bech32Checksum.FeedInjective | address/bech32/bech32.go:41-115 | different thirty-bit states never meet again, whatever symbols follow |
| Bech32Checksum.FeedLinear | address/bech32/bech32.go:41-115 | what a sequence of symbols adds does not depend on the state it is added to |
| Bech32Checksum.ChecksumUnique | address/bech32/bech32.go:126-139 | exactly one choice of six symbols leads from a state to a target: the one the writer computes |
| Bech32Checksum.BurstDetected | address/bech32/bech32.go:41-115 | sequences that differ only in a window of at most six consecutive symbols and end in the same state are equal, at any length |
| Bech32.ScanExact | address/bech32/bech32.go:183-196 | the character scan accepts exactly the printable strings that do not mix cases, and reports whether there was an upper-case letter |
| Bech32.ChecksumExact | address/bech32/bech32.go:150-166 | data and six symbols verify for a version if and only if the six symbols are that version's checksum |
| Bech32.DecodeEncode | address/bech32/bech32.go:175-257 | for every nonempty printable human-readable part, every sequence of five-bit values of any length and both versions, decoding the encoding returns the lower-case part, the same values and exactly that version |
| Bech32.EncodeDecode | address/bech32/bech32.go:303-326 | whatever is decoded is printable, keeps to one case and is, in lower case, the encoding of the result |
| Bech32.BurstRejected | address/bech32/bech32.go:150-166 | two accepted strings of one length with the same part and version cannot differ only within six consecutive characters, and so never in exactly one |
| Bech32Part.LowBitsCovered | address/bech32/bech32.go:41-115 | two parts of one length that differ only in the low five bits of six consecutive characters never lead to the same state, whatever follows |
| Bech32Part.HighBitsCovered | address/bech32/bech32.go:41-115 | the same for the high bits |
| Bech32Part.ShortPartCovered | address/bech32/bech32.go:41-115 | two different parts of at most two characters, as every network has, never lead to the same state |
| Bech32Part.PartChangeRejected | address/bech32/bech32.go:150-166 | two accepted strings of one version that read the same from the separator on cannot differ in their parts in these ways |
| Bech32Part.CharsetExact | address/bech32/bech32.go:15 | a value below 32 is written as the character at its place in the set |
| Bech32Part.AsciiExact | address/bech32/bech32.go:182-201 | printable, upper-case and lower-case characters and lowering are those of ASCII |
| Bech32Part.QuestionString | address/bech32/bech32_test.go:178 | the string "?1v759aa" is the version M encoding of the part "?" without data and decodes to it |
| Bech32.SuggestedChecksum | address/bech32/bech32.go:225-253 | the checksums in a checksum error repair the string for each version, and the field meant for the second version holds both checksums because one builder is used twice |
| Bech32Loops.Fold | address/bech32/bech32.go:78-86 | the inner loop over the five generator words is one checksum step |
| Bech32Loops.Polymod | address/bech32/bech32.go:41-115 | the five loops compute the state after part, values and checksum, or six zeros when there is none |
| Bech32Loops.WriteChecksum | address/bech32/bech32.go:126-139 | writes the six characters of the checksum |
| Bech32Loops.VerifyChecksum | address/bech32/bech32.go:150-166 | finds a version exactly when the symbols lead to its constant |
| Bech32Loops.CharsToBytes | address/bech32/bech32.go:22-32 | the character loop returns the values or the first character outside the set |
| Bech32Loops.ScanCharacters | address/bech32/bech32.go:183-196 | the scan loop with its early returns |
| Bech32Loops.DecodeNoLimitWithVersion | address/bech32/bech32.go:175-257 | the decoder with all its error returns computes the decoding function |
| Bech32Loops.EncodeGeneric | address/bech32/bech32.go:303-326 | the encoder computes the encoding function, first wide byte reported |
| ConvertBits.PaddedCarriesSame | address/bech32/bech32.go:345-417 | with padding, for all group sizes, the result carries the same bits followed by the zeros that complete the last group |
| ConvertBits.UnpaddedCarriesSame | address/bech32/bech32.go:345-417 | without padding, only an incomplete group of at most four zero bits is dropped |
| ConvertBits.RoundTrip | address/bech32/bech32.go:345-417 | for all group sizes, regrouping with padding and back without is the identity if and only if the padding is at most four bits and less than one original group |
| ConvertBits.RoundTripBack | address/bech32/bech32.go:345-417 | regrouping without padding and back with padding is the identity whenever less than one original group was dropped |
| ConvertBits.BytesRoundTrip | address/bech32/bech32.go:345-417 | bytes to five bits and back is the identity on every byte string |
| ConvertBits.Regroup | address/bech32/bech32.go:345-417 | the nested loops compute the conversion for all group sizes, both padding modes and both errors |
| Segwit.EncodeExact | address/address.go:69-110 | encoding succeeds, and its self-check passes, if and only if the version is 0 or 1, the program length is allowed, the part is nonempty and printable and the string fits in 90 characters; the result decodes to the same witness |
| Segwit.DecodeCanonical | address/address.go:240-291 | every accepted version 0 or 1 address is, in lower case, the encoding of its own witness |
| Segwit.AcceptsExactly | address/address.go:240-291 | a string is accepted for a witness if and only if it has at most 90 characters, carries the symbols of that witness, and version, length and checksum are allowed together |
| Segwit.AddressRoundTrip | address/address.go:148-198 | every anchor, key hash, script hash and Taproot address prints to a string that decodes to it, if and only if its part is registered and has at least two characters |
| Segwit.AcceptedExactly | address/address.go:160-196 | of the witnesses under a registered part, exactly versions 0 and 1 with twenty or thirty-two bytes and the anchor become addresses; a later version or another length is the error |
| Segwit.ReprintExact | address/address.go:148-198 | an accepted address prints back as itself in lower case if and only if it is not a version 1 program of twenty bytes |
| Segwit.TwentyByteExample | address/address.go:185-186 | a concrete version 1 address that is taken for a version 0 key hash and prints back differently |
| Radix.RebaseTwice | address/base58/base58.go:30-142 | changing between any two bases and back, leading zeros kept, is the identity |
| Base58.DecodeEncode | address/base58/base58.go:30-142 | decoding undoes encoding on every byte string |
| Base58.EncodeDecode | address/base58/base58.go:30-142 | encoding undoes decoding on every string over the alphabet |
| Base58.DecodeNothing | address/base58/base58.go:56-67 | decoding gives nothing if and only if the string is empty or has a character outside the alphabet |
| Base58Loops.FullChunk | address/base58/base58.go:118-123 | the ten digits of a chunk continue the digits of the rest of the number |
| Base58Loops.LowDigits | address/base58/base58.go:99-125 | the chunked loop produces the digits of digit-by-digit conversion |
| Base58Loops.FlipAnswer | address/base58/base58.go:135-139 | the in-place loop reverses |
| Base58Loops.EncodeChunked | address/base58/base58.go:92-142 | the chunked encoder computes the encoding |
| Base58Loops.ChunkValue | address/base58/base58.go:56-67 | ten digits accumulate to their value in 64-bit arithmetic without overflow |
| Base58Loops.DecodeChunked | address/base58/base58.go:30-89 | the chunked decoder computes the decoding |
| MergedView.MergeEnumerates | database/ffldb/dbcache.go:99-158 | merging the database entries that no pending change hides with the pending entries enumerates exactly the overlay, in walking order, each key once with the overlay's value |
| MergedView.EnumerationUnique | database/ffldb/dbcache.go:99-158 | there is one ordered enumeration of a map |
| DbIterator.Iterator.SkipPendingUpdates | database/ffldb/dbcache.go:99-118 | skips hidden keys in either direction without changing what the database still contributes |
| DbIterator.Iterator.ChooseIterator | database/ffldb/dbcache.go:126-158 | positions on the entry that comes first in the direction and loses none |
| DbIterator.Iterator.First | database/ffldb/dbcache.go:164-170 | everything in the overlay lies ahead and nothing behind |
| DbIterator.Iterator.Last | database/ffldb/dbcache.go:176-182 | everything lies ahead backwards and nothing behind |
| DbIterator.Iterator.Next | database/ffldb/dbcache.go:188-198 | drops exactly the first of the entries ahead and stays beyond all it has gone past; after backward moves it lands on the next entry of the overlay, or on none when there is none, if and only if the other cursor has run out and has no nearer entry to go back to |
| DbIterator.Iterator.Prev | database/ffldb/dbcache.go:204-214 | the mirror image: after forward moves it lands on the previous entry of the overlay, or on none when there is none, if and only if the other cursor has run out and has no nearer entry to go back to; with both cursors on an entry it lands on the one beyond |
| DbIterator.Iterator.TurnLands | database/ffldb/dbcache.go:188-214 | the exact condition under which turning round finds the nearest entry gone past, for either direction and also from the exhausted state |
| DbIterator.Iterator.PassedFollows | database/ffldb/dbcache.go:99-158 | the whole walk in the other direction is what remains, read back, followed by what was gone past, so the nearest entry gone past is the overlay's neighbour of the current one |
| DirectionChange.TurnExact | database/ffldb/dbcache.go:188-214 | of two cursors, one moved back and one left standing, the first entry found is the nearest one behind if and only if the standing cursor has run out and the moved one leads |
| DbIterator.Iterator.Seek | database/ffldb/dbcache.go:220-226 | what lies ahead are the entries from the sought key on, and all behind come before the current one |
| DbIterator.Iterator.CurrentIsFirst | database/ffldb/dbcache.go:232-258 | the current entry is the first of those ahead, and there is one exactly when something is ahead |
| DbIterator.Iterator.Walk | database/ffldb/dbcache.go:164-214 | starting at an end and moving until exhausted visits everything once |
| DbIterator.WalkEnumerates | database/ffldb/dbcache.go:164-214 | that walk enumerates the overlay, ascending or descending, within any key range |
| DbIterator.SeekEnumerates | database/ffldb/dbcache.go:220-226 | after a seek the walk enumerates the part of the overlay from the sought key on |
| DbIterator.TurningBackSkips | database/ffldb/dbcache.go:204-214 | over database keys 1 and 4 and pending key 2, first, next and previous give 1, 2 and 4 |
| DbCache.FetchSeesView | database/ffldb/dbcache.go:297-328 | lookups agree with the overlay for a key if and only if it is not both added and removed; existence and value lookups agree always |
| DbCache.LookupIsApply | database/ffldb/db.go:1034-1084 | reading through a transaction's pending changes is reading the view they lead to |
| DbCache.Transaction.PutKey | database/ffldb/db.go:1055-1065 | the transaction's view gains the pair, additions and removals stay disjoint |
| DbCache.Transaction.DeleteKey | database/ffldb/db.go:1092-1104 | the transaction's view loses the key, additions and removals stay disjoint |
| DbCache.Transaction.FetchKey | database/ffldb/db.go:1070-1084 | returns what the transaction's view holds |
| DbCache.Cache.TakeSnapshot | database/ffldb/dbcache.go:401-419 | the snapshot, a value that later operations cannot change, shows the current view |
| DbCache.Cache.CommitTreaps | database/ffldb/dbcache.go:426-484 | all updates are applied or, whichever step fails, none; it succeeds if and only if opening the transaction, every update and its commit do |
| DbCache.Cache.Flush | database/ffldb/dbcache.go:491-533 | leaves the view unchanged, and on success the database alone holds it; it succeeds if and only if no step it takes fails, and an empty cache takes no database transaction |
| DbCache.Cache.CommitAfterFlush | database/ffldb/dbcache.go:576-607 | when a flush is due, succeeds if and only if no step of the flush or of the commit fails, and then everything committed is in the database and nothing is cached; otherwise the view is unchanged |
| DbCache.Cache.CommitTx | database/ffldb/dbcache.go:576-642 | through the cache or through a flush, whichever step of the two database transactions fails, the view changes by exactly the transaction or not at all; the view is always the replay of all committed transactions and the database alone a prefix of that replay |
| DbCache.FlushedView | database/ffldb/dbcache.go:491-533 | writing disjoint cached changes down gives what the overlay showed |
| DbCache.CachedView | database/ffldb/dbcache.go:609-640 | folding a transaction into the cached changes shows the transaction applied, a key both added and removed ending up removed, and keeps them disjoint |
| BlockFiles.UnwrapRecord | database/ffldb/blockio.go:538-584 | reading accepts the record written for a block and returns the block |
| BlockFiles.WriteAtReads | database/ffldb/blockio.go:402-420 | a write changes exactly its own range, leaves every other byte and fills a gap before it with zeros |
| BlockFiles.AppendStored | database/ffldb/blockio.go:432-523 | appending at the end keeps every stored record readable and stores the new one behind all others |
| BlockStore.BlockStore.Append | database/ffldb/blockio.go:402-420 | a write at the cursor, when that is the end of the file, extends the file by exactly the data and leaves the cursor at its new end |
| BlockStore.BlockStore.constructor | database/ffldb/blockio.go:795-826 | a store opened over files below 4 GiB starts sound, its cursor at the end of the last file |
| BlockStore.BlockStore.MakeRoom | database/ffldb/blockio.go:448-470 | a new file is begun exactly when the record would pass the limit, overflow included |
| BlockStore.BlockStore.WriteBlock | database/ffldb/blockio.go:432-523 | every earlier location keeps its block, records never overlap, and the file limit is kept if and only if the record fits in a file at all |
| BlockStore.BlockStore.ReadBlock | database/ffldb/blockio.go:538-584 | reads the record or reports why not, and for every location ever returned gives back its own block |
| BlockStore.BlockStore.ReadBlockRegion | database/ffldb/blockio.go:594-618 | the bytes at the position computed in 32-bit arithmetic, or an error exactly when the file lacks them; every in-bounds region of a stored block is the matching slice of it |
| BlockStore.BlockStore.OpenFile | database/ffldb/blockio.go:261-295 | opens exactly existing files, most recent first, closing the least recent at the limit of 25; open files stay listed, and the three structures keep agreeing if they did |
| BlockStore.BlockStore.CloseFile | database/ffldb/blockio.go:300-315 | takes a file out of both maps and leaves the list as it is |
| BlockStore.BlockStore.BlockFile | database/ffldb/blockio.go:344-389 | finds or opens a file and moves it to the front; open files stay listed, and the three structures keep agreeing if they did |
| BlockStore.CloseAgrees | database/ffldb/db.go:1632-1642 | closing a file on its own, as pruning does, keeps open files, list elements and list in agreement if and only if it was not open |
| BlockStore.PrunedFileStaysListed | database/ffldb/db.go:1632-1642 | a concrete open file that stays in the list after it is closed on its own |
| BlockStore.BlockStore.Prune | database/ffldb/db.go:1632-1642 | closing and deleting a file before the cursor keeps the store sound and every record of the other files, fails exactly when the file is missing, and leaves open files, list elements and list in agreement if and only if the file was not open |
| BlockStore.BlockStore.Perform | database/ffldb/blockio.go:261-749 | every run, in any order, of reads, writes below 4 GiB, prunes of files before the cursor and rollbacks to a position at or before the cursor whose newer files all exist and are not open keeps the store sound and at most 25 files open for reading |
| BlockStore.BlockStore.DeleteFile | database/ffldb/blockio.go:320-332 | deletes exactly files that exist and are not open |
| BlockStore.BlockStore.HandleRollback | database/ffldb/blockio.go:679-749 | the cursor ends at the position whatever fails; when every newer file exists and none is open, the files end there too and the store is sound again with the records that end by it; otherwise files are deleted only down to the first that is missing or open |
| BlockStore.StuckExactly | database/ffldb/blockio.go:713-719 | deleting the newer files runs through if and only if all of them exist and none is open |
| BlockFiles.RollbackKeeps | database/ffldb/blockio.go:679-749 | every record that ends before the position survives unchanged |
| BlockFiles.LogUptoAll | database/ffldb/blockio.go:679-749 | in a stored log no record that ends by the position is lost with the later ones |
| Reconcile.WriteRowRoundTrip | database/ffldb/reconcile.go:22-48 | a written cursor row reads back as the position |
| Reconcile.WriteRowCanonical | database/ffldb/reconcile.go:33-48 | an accepted row is the row of the position read |
| Reconcile.ReconcileDB | database/ffldb/reconcile.go:52-117 | succeeds if and only if there is a readable position not after the scanned end, and then leaves the cursor there; the files end there when every newer file exists and none is open; corruption is reported exactly when the files end before it; an error changes nothing |
| Reconcile.RepairKeepsRecords | database/ffldb/reconcile.go:52-117 | records before the recorded position are unchanged by the repair |
| Reconcile.ScanBlockFiles | database/ffldb/blockio.go:756-791 | finds the highest file number, zero if there is no file |
| Reconcile.OpenDB | database/ffldb/db.go:2148-2161 | opening over any files: the position is accepted if and only if it is not after the end of the last file, and the files are repaired to it |
| Reconcile.OpenTwice | database/ffldb/reconcile.go:52-117 | opening again over the files left by the first opening, on the same row, changes nothing and ends the same way if and only if, on the original files, no file after the position was missing or the missing file that stops the repair leaves the file at the position as the last one with exactly the recorded length; a failed opening fails again |
| Reconcile.RepairedScansExactly | database/ffldb/reconcile.go:86-95 | that condition is exactly when scanning the repaired files finds the recorded position |
| Reconcile.HarmlessGap | database/ffldb/blockio.go:713-719 | a concrete disk with a missing file where one opening is enough |
| Reconcile.GapStopsRepair | database/ffldb/blockio.go:713-719 | a concrete disk with a missing file, where the first opening succeeds without cutting and the second cuts |
| Reconcile.RepairOnlyCuts | database/ffldb/reconcile.go:86-95 | the repair never fills up if and only if the file at the position reaches it or a newer file stops it |
| Reconcile.ShortFileUnnoticed | database/ffldb/reconcile.go:86-95 | a concrete disk whose earlier file is short is filled with zeros and reported as sound |
| Ciphers.FSChaCha20Poly1305.Crypt | v2transport/chacha.go:60-113 | seals or opens under the nonce of the counter and moves to the next state; a failed opening changes nothing |
| Ciphers.FSChaCha20.Crypt | v2transport/chacha.go:145-183 | adds the keystream at the current position and moves to the next state, the next key being the keystream that follows |
| Ciphers.PacketKeyByEpoch | v2transport/chacha.go:88-110 | the n-th packet uses the key after n/224 rekeyings |
| Ciphers.LengthByEpoch | v2transport/chacha.go:145-183 | the n-th length uses the key and nonce of epoch n/224 at position three times n mod 224 |
| Ciphers.NonceUnique | v2transport/chacha.go:66-70 | no two packets share both key epoch and nonce |
| Ciphers.NonceLayout | v2transport/chacha.go:66-103 | read as numbers, a packet nonce is the position within the epoch and the epoch, a rekeying nonce all ones and the epoch, a length nonce zero and the epoch |
| Ciphers.PacketKeySize | v2transport/chacha.go:92-110 | after every rekeying the packet key has thirty-two bytes |
| Ciphers.RekeyNonceUnique | v2transport/chacha.go:92-103 | a rekeying nonce is never a packet nonce, and no two epochs share one |
| Ciphers.KeystreamUnique | v2transport/chacha.go:145-183 | within an epoch no keystream byte serves two lengths, or a length and the next key |
| Ciphers.XorTwice | v2transport/chacha.go:145-150 | adding the same keystream twice gives the text back |
| Transport.ReadEmitted | v2transport/transport.go:538-693 | a packet read in the direction it was written in comes back, and both directions move on alike |
| Transport.ReadSealed | v2transport/transport.go:618-692 | whatever the other header bits, a packet is a decoy if and only if the top bit of its header is set, and it takes twenty bytes more than its contents |
| Transport.EmittedHeader | v2transport/transport.go:538-612 | a sent packet opens to the header byte 128 for a decoy, 0 for a real packet, and the contents |
| Transport.Lockstep | v2transport/transport.go:615-693 | for every packet sequence that ends in a real packet, as many receive calls as real packets return exactly their contents in order, consume exactly the bytes sent and leave the receiver in the sender's state, across every rekeying |
| Transport.CountersAgree | v2transport/transport.go:538-612 | both ciphers of a direction count its packets, from any packet on |
| TransportPeer.Peer.CreateV2Ciphers | v2transport/transport.go:156-316 | each role sends with the keys and terminator the other role receives with |
| TransportPeer.Peer.V2EncPacket | v2transport/transport.go:538-612 | appends exactly the packet's bytes and advances both ciphers, or fails on too long contents and changes nothing |
| TransportPeer.Peer.ReceiveOne | v2transport/transport.go:618-692 | one turn of the receive loop, every error path included |
| TransportPeer.Peer.V2ReceivePacket | v2transport/transport.go:615-693 | the receive loop computes the receiving function: decoys skipped, associated data for the first packet only |
| TransportPeer.Peer.SkipGarbage | v2transport/transport.go:482-534 | the scan loop finds the terminator where the scan function does and returns the bytes before it |
| TransportPeer.ScanExact | v2transport/transport.go:494-534 | garbage followed by the terminator is recognized if and only if it is at most 4094 bytes long and the terminator does not appear earlier |
| TransportPeer.LongestGarbageLost | v2transport/transport.go:376-381 | 4095 bytes of garbage, which a sender may choose, are never recognized |
| TransportPeer.HandshakeDelivers | v2transport/transport.go:446-516 | the garbage is recognized if and only if it is at most 4094 bytes long and does not hold the terminator, and the version packet authenticated with it is received by the other role with both cipher states agreeing |
| AddrBook.CountsAddUp | addrmgr/addrmanager.go:33-49 | new and tried counts sum to the size of the index |
| AddrBook.DropOk | addrmgr/addrmanager.go:254-263 | taking an address out of a new bucket, and out of the index with its last place, keeps the invariant |
| AddrBook.InsertOk | addrmgr/addrmanager.go:212-221 | a new index entry keeps the invariant but for its own missing place |
| AddrBook.AddOk | addrmgr/addrmanager.go:230-238 | one more place keeps the invariant, including the bound of eight places and the bucket bound of 65 |
| AddrBook.PromoteOk | addrmgr/addrmanager.go:942-969 | moving an address to a tried bucket with room keeps the invariant |
| AddrBook.SwapOk | addrmgr/addrmanager.go:971-1000 | exchanging it with an evicted address keeps the invariant |
| AddrBook.UntriedHeld | addrmgr/addrmanager.go:196-211 | an address that is not tried has between one and eight places |
| AddrBook.Limits | addrmgr/addrmanager.go:108-134 | 1024 new buckets of at most 65 addresses, 64 tried buckets of at most 256, and between one and eight places for an untried address |
| AddrManager.AddrManager.DropNew | addrmgr/addrmanager.go:254-281 | deletes one place and, with the last, the entry |
| AddrManager.AddrManager.ExpireNew | addrmgr/addrmanager.go:246-282 | leaves exactly the addresses of the bucket that are not bad, except one that no other is older than; those that leave count one place less or are forgotten with their last, all other entries and buckets stay as they are |
| AddrManager.AddrManager.WantsMore | addrmgr/addrmanager.go:196-211 | a known address gets another place exactly when it is not tried, has fewer than eight and the draw is zero; the bound of the draw is positive |
| AddrManager.AddrManager.UpdateAddress | addrmgr/addrmanager.go:166-242 | keeps the invariant over every address, bucket and draw; a new address is stored as seen with one place; a known one keeps all services and adds the new, takes over the time if it is later or brings a service, and gains a place exactly when it is untried, has fewer than eight, the draw is zero and the bucket does not hold it; the bucket expires first exactly when it held more than 64, and all other entries and places stay |
| AddrManager.AddrManager.PickTried | addrmgr/addrmanager.go:287-299 | the slot of the oldest address of the bucket, the first of several |
| AddrManager.AddrManager.ClearNew | addrmgr/addrmanager.go:940-959 | removes an address from all new buckets; the first bucket that held it always exists, so the branch for an unplaced address is dead |
| AddrManager.AddrManager.Good | addrmgr/addrmanager.go:915-1001 | keeps the invariant and moves the address to its tried bucket; from a full one the eldest address goes back to the new bucket picked for it or, when that is full, to the first one the moved address left |
| AddrManager.AddrManager.RoomyBucket | addrmgr/addrmanager.go:975-982 | the bucket for an evicted address is the picked one, or the first one just left when that is full, and has room |
| AddrManager.AddrManager.Attempt | addrmgr/addrmanager.go:869-885 | keeps the invariant and changes only the attempt count |
| AddrManager.AddrManager.Connected | addrmgr/addrmanager.go:890-910 | keeps the invariant and changes only the time of a known address not seen for twenty minutes |
| AddrManager.AddrManager.SetServices | addrmgr/addrmanager.go:1004-1022 | keeps the invariant and changes only the services |
| ConnManager.ReachableInvariant | connmgr/connmanager.go:210-478 | in every reachable state: a request is in at most one place, ids are given out once, every established request holds its own open connection, all other received connections are closed, and connections plus goroutines in flight never outnumber what was set off |
| ConnManager.PendingNotEstablished | connmgr/connmanager.go:250-378 | no request is both pending and established |
| ConnManager.ConnectionsAccounted | connmgr/connmanager.go:273-326 | every connection the handler received is closed or is held by exactly one established request, never both |
| ConnManager.OutboundBound | connmgr/connmanager.go:538-560 | established requests never exceed the target plus the calls of Connect, so with none of those never the target |
| ConnManager.OverForever | connmgr/connmanager.go:298-354 | a canceled, removed or dropped request is never pending or established again in any continuation |
| ConnManager.StatusExact | connmgr/connmanager.go:250-378 | a request calls itself established if and only if it is established or was dropped |
| ConnManager.StaleStatus | connmgr/connmanager.go:317-354 | a disconnected request goes on calling itself established if and only if it is not permanent and at least the target number of others remains |
| ConnManager.StaleStatusReachable | connmgr/connmanager.go:317-354 | such a request is reachable |
| ConnProgress.NoOrphan | connmgr/connmanager.go:210-245 | until the manager is stopped, something is under way for every pending request, except one that is not permanent when there is no address source |
| ConnProgress.OrphanWithoutSource | connmgr/connmanager.go:210-245 | such a request can be left pending with nothing under way |
| ConnProgress.DisconnectExact | connmgr/connmanager.go:317-354 | a disconnected request is pending again, and dialed again or replaced, exactly when fewer than the target number of others remain or it is permanent; removed it has ended, otherwise it is dropped; its connection is closed |
| ConnProgress.PoolKept | connmgr/connmanager.go:210-245 | with an address source and until it is stopped, the manager never has fewer requests under way or established than were set off, less those removed by callers or dropped; left to itself never fewer than the target |
| ConnProgress.PermanentForever | connmgr/connmanager.go:210-245 | a permanent request, in every continuation until the manager is stopped, is on its way to the handler, pending with something under way, established, or ended by a caller; it is never dropped or replaced |
| ConnProgress.ExitFinal | connmgr/connmanager.go:372-379 | once the handler has exited no request or connection changes any more |
| BlockedMatrix.AddTerms | nogopow/matrix.go:203-217 | the innermost loop with zero skipping adds one more term to part of a row and touches nothing else |
| BlockedMatrix.MulTile | nogopow/matrix.go:199-217 | a tile advances its cells from one block of terms to the next |
| BlockedMatrix.MulMatrixBlocked | nogopow/matrix.go:174-221 | for every size and every 64-bit contents, wrap-around included, each cell is the naive sum |
| BlockedMatrix.MulMatrixInto | nogopow/matrix.go:161-172 | the naive triple loop computes the naive sums |
| BlockedMatrix.ProductUnique | nogopow/matrix.go:161-221 | both loops leave the same contents |
| BlockedMatrix.WorkersPartition | nogopow/matrix.go:125-144 | every row is computed by exactly one worker |
| FixedMatrix.TermExact | nogopow/matrix.go:203-217 | the product of two int8 numbers in fixed point neither wraps nor rounds |
| FixedMatrix.TermNearest | nogopow/matrix.go:203-217 | without a wrap-around a term is the product divided by 2^24 and rounded to the nearest, halves up |
| FixedMatrix.FromFixedNearest | nogopow/matrix.go:31-40 | a cell becomes the nearest integer, halves up, clamped to eight bits |
| FixedMatrix.SumExact | nogopow/matrix.go:161-172 | up to size 2^24 every cell of a product of int8 matrices is the exact dot product |
| FixedMatrix.RoundedProduct | nogopow/matrix.go:280-285 | a rounded and clamped fixed-point product is the saturating integer product |
| MatrixChain.NewIdentity | nogopow/matrix.go:247-250 | the identity in fixed point |
| MatrixChain.RoundCells | nogopow/matrix.go:280-285 | every cell is rounded, clamped and put back in fixed point |
| MatrixChain.ChainStep | nogopow/matrix.go:275-286 | one step computes the saturating integer product |
| MatrixChain.RunChain | nogopow/matrix.go:258-293 | the 64 steps with their swapping buffers compute the iterated saturating integer product |
| MatrixChain.AddChains | nogopow/matrix.go:299-313 | the four chains are added and clamped cell by cell |
| Difficulty.ScaledBounds | nogopow/difficulty_adjustment.go:161-179 | under any rounding to nearest the scaled difficulty is at least one and at most one more than twice the parent's, and at most twice if and only if it is not clamped or the parent is below 2^44 or at least 2^63 |
| Difficulty.ScaledDirection | nogopow/difficulty_adjustment.go:150-179 | rounding included, faster than the deadband raises by at least one and slower never raises |
| Difficulty.AcceptedExactly | nogopow/difficulty_adjustment.go:112-235 | for every parent, absent or non-positive included, the computed difficulty is accepted by validation if and only if no minimum is set, or there is no parent difficulty, or the parent is at the minimum in the deadband, or the minimum is within the 2.048-fold bound outside |
| Difficulty.AlwaysAccepted | nogopow/difficulty_adjustment.go:112-235 | a parent at or above the minimum never leads to a rejected difficulty |
| Difficulty.ValidatedExactly | nogopow/difficulty_adjustment.go:203-235 | validation accepts exactly difficulties from one and from the minimum up that are at most 2.048 times a positive parent's |
| Difficulty.CalcWithoutParent | nogopow/difficulty_adjustment.go:117-125 | without a parent difficulty the result is the minimum, or one when there is none |
| Difficulty.DeadbandBelowMinimum | nogopow/difficulty_adjustment.go:150-154 | a concrete parent below the minimum whose deadband result is rejected |
| Difficulty.LongerNeverHarder | nogopow/difficulty_adjustment.go:138-187 | a longer interval gives no higher difficulty if and only if the parent is at or above the minimum, or the shorter interval is outside the deadband, or the longer one is inside |
| Difficulty.LongerHarderBelowMinimum | nogopow/difficulty_adjustment.go:150-154 | a concrete parent below the minimum where it does give a higher one |
| Difficulty.FastRun | nogopow/difficulty_adjustment.go:112-201 | n blocks faster than the deadband raise the difficulty by at least n and to less than 2^n times one more than it was |
| DifficultyValue.ScaledNear | nogopow/difficulty_adjustment.go:161-179 | the scaled difficulty is the parent's times half of one plus the ratio, between a half and two, up to one and 2^-51 of the parent's, and never below half the parent's |
| DifficultyValue.DeadbandNear | nogopow/difficulty_adjustment.go:150-154 | the deadband is five hundredths either way up to 2^-52 |
| DifficultyValue.CalcNear | nogopow/difficulty_adjustment.go:112-189 | from target and interval: unchanged within the deadband, otherwise within one and 2^-49 of the parent's of the parent's times half of one plus target over interval, between a half and two, or the minimum if that is higher |
| DifficultyValue.IntervalExact | nogopow/difficulty_adjustment.go:134-139 | for times below 2^63 the interval is the difference, at least one |
| DifficultyValue.FortySeconds | nogopow/difficulty_adjustment.go:147-179 | a parent of 1000 after forty seconds instead of sixty leads to exactly 1250 |

## Left out

- Sockets, leveldb, treaps and the file system: maps, byte sequences or abstract steps stand for them.
- SHA-256, RIPEMD, Keccak, ChaCha20, Poly1305, HKDF, CRC-32 and secp256k1 are parameters of the models.
- The remaining wire messages, the block header beyond its 80 bytes, and chain parameters: fixed layouts that would only add easy members.
- Running out of disk space, where the source ends the process, and process exit in general.
- Bech32.DecodeEncode: strings are bytes and lower-casing is that of ASCII; Unicode lower-casing of a part outside ASCII, which the decoder rejects, is not modelled.
- TxDecoder.BtcDecode: the script slab is passed in rather than taken from a pool.
- DbCache.Cache.TakeSnapshot: takes database and cache roots in one step, which the source reads one after the other.
- PeerPipeline.HandlersQuiesce: sends on completion channels and to the stall handler never block in the model; the source relies on their receivers.
- PeerPipeline.ShutdownCompletes: the same sends never block.
- BlockStore.BlockStore.WriteBlock: file numbers are unbounded, writes do not fail, and a record must be shorter than 4 GiB.
- BlockStore.BlockStore.ReadBlock: a location shorter than the twelve bytes of overhead, on which the source panics, is excluded.
- BlockStore.BlockStore.Perform: steps outside the conditions in its row are skipped; a rollback that a missing or open file stops leaves the files beyond the cursor, as HandleRollback states.
- BlockStore.BlockStore.HandleRollback: going forward past the cursor, which no caller does, is excluded.
- Reconcile.OpenDB: block files of 4 GiB and more, whose size the source truncates to 32 bits, are excluded, and so are rows shorter than twelve bytes.
- Reconcile.OpenTwice: block files of 4 GiB and more, whose size the source truncates to 32 bits, are excluded, and so are rows shorter than twelve bytes.
- Reconcile.ReconcileDB: creating the initial buckets is not modelled, nor is reading the row from its bucket; rows shorter than twelve bytes, on which the source panics, are excluded.
- Ciphers.FSChaCha20Poly1305.Crypt: the packet counter does not wrap at 2^64.
- Ciphers.FSChaCha20.Crypt: the chunk counter does not wrap at 2^64.
- TransportPeer.Peer.CreateV2Ciphers: key derivation is taken as given; the derived secrets are a parameter.
- TransportPeer.HandshakeDelivers: the key exchange is not modelled, and decoys during the handshake, which the source sends twice, are left out as callers pass none.
- AddrManager.AddrManager.Good: a known address is a value in the index and buckets hold keys; that source structures share one object is not captured. A failed load, which does not reset the counters, is outside the invariant.
- ConnManager.OutboundBound: the delay after 25 failures only changes when a goroutine starts and is not modelled; callbacks are left out.
- Difficulty.ScaledBounds: exponents are unbounded, so overflow to infinity and denormal numbers, which these quantities do not reach, are not modelled.
- MatrixChain.RunChain: expanding the cache into matrices and hashing the seed are left out.
- The random choice of addresses, stall detection, inbound listeners and the seal and target formats of NogoPow.
