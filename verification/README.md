# Verified core of an Orbiter node

A Dafny model of the parts of the node that carry state, byte formats or protocol: the codecs, the
block and its parallel parser, the Merkle tree, the contract variables with commit and revert, the
contracts that call each other, native accounts and transaction execution, the rdPoS round, storage
and broadcast gossip.  `dafny verify dfyconfig.toml` checks everything.

Hashing, signing and key recovery are parameters (`Crypto.Crypto`).  Nothing is assumed about them
beyond the sizes of their results; a result that rests on collision resistance says instead which
finite set of actually hashed strings would have to contain two strings with one digest
(`Crypto.Collides`).  `uint256_t` is a checked type, so an overflow is an exception; exceptions are
`Err`, `false` or a `Threw` outcome.  Every mutex-protected method is one atomic step; the broadcast
of one message is split at its lock.

| file | what it models |
|---|---|
| Bytes, Crypto, Rlp | big-endian integers, padding, signatures, RLP items |
| RlpStandard, WireForms | which transactions are written as the Yellow Paper says, and which strings are parsed as a transaction |
| Tx, ValidatorTx, Randomness, Block, BlockLayout, Merkle | transactions, blocks, the parallel parser, where everything is in a block, the hash tree |
| Abi, AbiLayout, AbiAccepts, Calls | the Solidity ABI encoder and decoder, byte by byte, and the call data of the contracts |
| Overlay, DynamicContract, TokenScripts | the transactional map and the call that commits or reverts |
| Ledger, Contracts, World, Transactions, Effects, Execution | tokens, wrappers, nested calls, accounts, one transaction and what it leaves, from its bytes to every entry |
| State, StateObject | validation, mempool, blocks, replay |
| Payments, Conservation | which blocks their senders can pay for, and when value is created |
| RandomGen, RdPoS, Round | shuffle, leader schedule, block check, validator mempool, assembly |
| History, Storage, Replay, Reload | the full history, the storage object that answers for it, why accepted blocks share no transaction, and which of them can be loaded again |
| Gossip, Sets | flooding of one broadcast id through a network; sizes of sets |

Methods and classes follow the original's loops and mutable objects and are tied to specification
functions; the results below are proved about those functions or states.

Where the code differs from its own documentation the model follows the code:

- a data string of exactly 55 bytes is written short and read long (`Tx.DataOf55BytesIsLost`), and a
  list of at most 55 bytes is written with a header that is refused; both are accepted in longer forms,
  so a block can be accepted from the wire, saved, and then stop the node from loading its own database
  (`Reload.AcceptedAndLost`, `Reload.SavedBlocksReload`, `Storage.SaveAndReload`);
- `sendTokens` compares the amount with the receiver's balance (`World.SendTokensFacts`);
- `withdraw` and `transferTo` of the ERC20 wrapper need strictly more than the amount
  (`Contracts.PayOutSucceeds`);
- erased keys survive a commit, so a key written again is lost (`Overlay.RewritesAreLost`);
- the exception handler of `processTransaction` refunds a debit that never happened
  (`State.TwoFromOneSenderMint`), and leaves a contract that threw the value it returns to the sender
  (`Conservation.MisdirectedValueIsMinted`, `Conservation.BlockConservesExactly`);
- a block may hold one transaction twice, and a lookup then answers with the first index while the
  block is in memory and with the last from the database (`History.RepeatedTransaction`,
  `History.OneAnswerIffNoRepeats`);
- `deriveContractAddress` puts one byte of the contract count into the hash (`World.ContractsAreFew`);
- `getProof` reads past an unpaired node's layer (`MerkleTree.ProofExistsIffPaired`).

## Model

| member | source | states |
|---|---|---|
| Bytes.UintRoundTrip | src/utils/utils.h:331-336 | reading the shortest big-endian form gives the integer back, and that form has no leading zero |
| Bytes.ShortestFormIsUnique | src/utils/utils.h:281-287 | every string without a leading zero is the shortest form of the integer it reads as |
| Bytes.BytesRequiredIsExact | src/utils/utils.h:317-323 | an integer fits in exactly that many bytes and in no fewer |
| Bytes.FixedRoundTrip | src/utils/utils.cpp:45-100 | a fixed-width integer reads back as itself |
| Bytes.FixedInverse | src/utils/utils.cpp:45-100 | writing what was read gives the same bytes, for every byte string |
| Bytes.FromBigEndianOfBoth | src/utils/utils.h:281-287 | the front part of a string counts 256 to the length of the rest times: most significant byte first |
| Bytes.PaddedUintIsFixed | src/utils/utils.cpp:181-185 | left-padding the shortest form is the fixed-width form |
| Bytes.ReadBigEndian64 | src/utils/utils.h:281-287 | the 64-bit loop computes the value modulo 2^64 for inputs of any length |
| Bytes.ReadBigEndian256 | src/utils/utils.h:281-287 | the checked 256-bit loop yields the value exactly when it fits and fails otherwise |
| Bytes.CountBytesRequired | src/utils/utils.h:317-323 | the shifting loop finds the exact width |
| Bytes.WriteUint | src/utils/utils.h:331-336 | filling the buffer from the back yields the shortest form |
| Rlp.ReadUintWritten | src/utils/tx.cpp:28-44 | an integer item is read back, leaving exactly what followed it |
| Rlp.ReadStringWritten | src/utils/tx.cpp:142-164 | a string item is read back whatever follows, for every length when the threshold is right, and for every length but 55 with the parser's threshold |
| Rlp.ReadString55 | src/utils/tx.cpp:142-164 | a string of 55 bytes read with the parser's threshold yields the empty string and leaves the 55 bytes unread |
| Rlp.StripListHeaderWritten | src/utils/tx.cpp:10-26 | a list header over more than 55 bytes is accepted with exactly the payload behind it |
| Rlp.ListHeaderIsPrefixFree | src/utils/tx.cpp:269-277 | two items that continue to equal strings are equal, header and rest |
| Rlp.TakeString | src/utils/tx.cpp:142-164 | the cursor method reads the same string and stops behind it |
| Tx.RoundTrip | src/utils/tx.cpp:3-204 | a well-signed transaction parses back from its signed form, all fields and sender, if and only if nonce and gas limit fit 64 bits, the payload exceeds 55 bytes and data is not 55 bytes long |
| Tx.DataOf55BytesIsLost | src/utils/tx.cpp:142-164 | no transaction with 55 bytes of data survives |
| Tx.ParsedIsSigned | src/utils/tx.cpp:3-204 | whatever is parsed is signed by its sender, with nonce and gas limit in 64 bits |
| Tx.SignedMeans | src/utils/tx.cpp:184-204 | the sender is the last 20 bytes of the hash of the key recovered from r, s and parity over the hash of the unsigned form, both scalars between 0 and the group order and the key not zero |
| Tx.ReadableFormIsAccepted | src/utils/tx.cpp:142-164 | and every such transaction has a form that is parsed, with a length field where the serializer's form has none |
| Tx.DataOf55BytesReadsEmpty | src/utils/tx.cpp:142-164 | what is parsed of a written transaction with 55 bytes of data has no data |
| Tx.ShortListIsRefused | src/utils/tx.cpp:10-26 | a written transaction with a payload of at most 55 bytes is refused |
| Tx.SerializeIsInjective | src/utils/tx.cpp:231-374 | equal serializations, signed or unsigned, mean equal fields, for every data length |
| Tx.SignedFormDeterminesTx | src/utils/tx.cpp:231-374 | equal signed forms of well-signed transactions mean equal transactions, sender included |
| Tx.SameHash | src/utils/tx.cpp:231-374 | two well-signed transactions with one hash are equal, or their signed forms collide |
| Tx.MakeSigns | src/utils/tx.cpp:206-229 | the signing constructor yields a transaction whose recovered sender is the claimed one, exactly when the public key is set |
| Tx.PayloadSize | src/utils/tx.cpp:244-266 | the length computed for the RLP header is the exact payload length |
| Tx.RlpSerialize | src/utils/tx.cpp:231-374 | the appending serializer writes the form the results above are about |
| Tx.MeasurePayload | src/utils/tx.cpp:244-266 | the accumulated total size is the payload length |
| Tx.ParseBytes | src/utils/tx.cpp:3-204 | the cursor parser accepts, rejects and returns what the specification does, on every byte string |
| ValidatorTx.RoundTrip | src/utils/tx.cpp:389-496 | a well-signed validator transaction parses back, all fields and sender, if and only if data is not 55 bytes long, chain id is at least 1 and the payload exceeds 55 bytes |
| ValidatorTx.ParsedIsSigned | src/utils/tx.cpp:389-496 | whatever is parsed is signed by its sender, for a chain other than 0 |
| ValidatorTx.SignedMeans | src/utils/tx.cpp:485-496 | the same with the parity v - (2 * chainId + 35) |
| ValidatorTx.ReadableFormIsAccepted | src/utils/tx.cpp:389-496 | and every such transaction has a form that is parsed |
| ValidatorTx.ChainIdIsRecovered | src/utils/tx.cpp:389-496 | the chain id is recovered from v exactly when it is at least 1 |
| ValidatorTx.SealVWraps | src/utils/tx.cpp:498-519 | v is 2 * chainId + 35 + id until that passes 2^64, and smaller afterwards |
| ValidatorTx.MakeSigns | src/utils/tx.cpp:498-519 | the signing constructor is well-signed exactly when the key is set and v does not wrap |
| ValidatorTx.UnsignedFormIsInjective | src/utils/tx.cpp:521-617 | the form that is signed determines data, height and chain id |
| ValidatorTx.SignedFormDeterminesTx | src/utils/tx.cpp:521-617 | equal signed forms of well-signed transactions mean equal transactions |
| ValidatorTx.RlpSerialize | src/utils/tx.cpp:521-617 | the appending serializer writes the specified form |
| ValidatorTx.ParseBytes | src/utils/tx.cpp:389-496 | the cursor parser agrees with the specification on every byte string |
| ValidatorTx.RecoverSender | src/utils/tx.cpp:389-496 | sender recovery agrees with the specification, failures included |
| RlpStandard.TxIsStandard | src/utils/tx.cpp:231-374 | a transaction is written as type 2 and the Yellow Paper's RLP list of its fields in the order of EIP-1559, signed or not, if and only if its data is not one byte below 128 and, when signed, neither r nor s is between 1 and 127 |
| RlpStandard.ValidatorTxIsStandard | src/utils/tx.cpp:521-617 | a validator transaction is that list of its own fields (EIP-155) under the same condition, if also v, or in the form to be signed the chain id, is not 0 |
| WireForms.TxParsesExactly | src/utils/tx.cpp:3-204 | any string is parsed as a transaction if and only if its signature recovers to its sender and the string is one of its forms: type byte, a long list header that measures the rest, the items in order in any width up to 55 bytes (32 for r and s), cut to 64 bits where the fields are, and anything behind them |
| WireForms.ValidatorTxParsesExactly | src/utils/tx.cpp:389-496 | the same for validator transactions, the chain id being what v leaves of it |
| Randomness.ParseTxSeedList | src/core/rdpos.cpp:290-299 | the loop computes the randomness that the next three rows describe |
| Randomness.SeedsOfBoth | src/core/rdpos.cpp:290-299 | the seeds of two lists one after the other are the seeds of the first and then those of the second |
| Randomness.SeedsSize | src/core/rdpos.cpp:290-299 | they are 32 bytes for each transaction that reveals one, and none for any other |
| Randomness.RandomnessOfEight | src/core/rdpos.cpp:290-299 | four commitments and four reveals give the hash of the last 32 bytes of the four reveals' data, in order |
| MerkleTree.LayersShrink | src/utils/merkle.cpp:14-25 | each layer is strictly shorter than the one below and made from it, so construction ends |
| MerkleTree.LastLayerIsRoot | src/utils/merkle.h:59-63 | construction ends in one hash, the root |
| MerkleTree.LessIsNumeric | src/utils/merkle.cpp:3-12 | strings of one length compare as the numbers they stand for |
| MerkleTree.RootSplits | src/utils/merkle.cpp:3-25 | the root without layers, as in section 2.1 of RFC 6962: split after the largest power of two below the length, hash the roots of the two parts, the smaller number first; one transaction gives the hash of its hash, none gives zero |
| MerkleTree.EqualValuesEqualLeaves | src/utils/merkle.cpp:3-12 | two hash trees of any shapes with one value have the same multiset of leaves, absent a collision among the strings they hash |
| MerkleTree.RootBindsTransactions | src/utils/merkle.h:43-54 | equal roots of two non-empty lists of any lengths mean equal multisets of transaction hashes, or a collision among the hashed strings |
| MerkleTree.SiblingOrderIsNotBound | src/utils/merkle.cpp:3-12 | exchanging two siblings never changes the root, so more than the multiset cannot be bound |
| MerkleTree.ProofExistsIffPaired | src/utils/merkle.cpp:27-40 | a proof exists if and only if the path meets no unpaired node |
| MerkleTree.ProofIsComplete | src/utils/merkle.cpp:42-48 | such a proof verifies against the root |
| MerkleTree.PowerOfTwoTreesArePaired | src/utils/merkle.cpp:27-40 | with a power of two of leaves every leaf has a proof |
| MerkleTree.UnpairedLeafHasNoProof | src/utils/merkle.cpp:27-40 | the third of three leaves has none |
| MerkleTree.ProofIsSound | src/utils/merkle.cpp:42-48 | any proof of any length accepted for the hash of 32 bytes means these bytes are in the list, or a collision |
| MerkleTree.Merkle.constructor | src/utils/merkle.cpp:14-25 | the built layers are those of the list |
| MerkleTree.Merkle.StackLayers | src/utils/merkle.cpp:21-24 | the growing loop ends with all layers up to the root |
| MerkleTree.Merkle.LayerAbove | src/utils/merkle.cpp:3-12 | the pairing loop makes the layer above, a lone last element moved up |
| MerkleTree.Merkle.GetRoot | src/utils/merkle.h:60-63 | the top of the object's tree is the root of its leaves, zero for none |
| MerkleTree.Merkle.GetProof | src/utils/merkle.cpp:27-40 | the walk collects the siblings of the path, fails exactly when one is missing, and is empty for an index past the leaves |
| MerkleTree.Merkle.Verify | src/utils/merkle.cpp:42-48 | accepts exactly when folding the proof over the leaf gives the root |
| Blocks.HeaderIsInjective | src/utils/block.cpp:139-153 | equal headers agree in all six fields |
| BlockLayout.HeaderIsThere | src/utils/block.cpp:139-185 | in a serialized block the signature is at 0, previous hash, randomness and the two roots at 65, 97, 129 and 161, timestamp, height and the offset of the validator transactions, most significant byte first, at 193, 201 and 209, and nothing behind the two lists |
| BlockLayout.TxIsThere | src/utils/block.cpp:155-185 | transaction i stands in signed form behind its 4-byte length, after the transactions before it |
| BlockLayout.ValidatorTxIsThere | src/utils/block.cpp:155-185 | and validator transaction i likewise after all transactions |
| BlockLayout.AcceptedFields | src/utils/block.cpp:4-137 | whatever is parsed has the fields of its bytes, roots and randomness of the transactions read, and the signer recovered from the first 65 bytes over the hash of the next 144 |
| Blocks.RoundTrip | src/utils/block.cpp:4-137 | a finalized block whose transactions round-trip parses back from its wire form, every field and both lists in order, if and only if its validator transactions carry its height and its signature is in range |
| Blocks.SurvivingTxsRoundTrip | src/utils/block.cpp:155-185 | transactions that survive their own wire form and fit 32 bits meet that hypothesis |
| Blocks.SurvivingValidatorTxsRoundTrip | src/utils/block.cpp:155-185 | likewise for validator transactions |
| Blocks.RandomAccess | src/core/storage.cpp:106-118 | walking the length prefixes to index i and parsing there yields transaction i, if those before it are small enough for the 32-bit addition of the walk |
| Blocks.ParseRunSplits | src/utils/block.cpp:67-75 | parsing a run of items is parsing its first part, then the rest from where that ended |
| Blocks.ChunksCoverAll | src/utils/block.cpp:48-51 | the chunks, remainder in the last, add up to the item count for every thread count |
| Blocks.CountedItemsCanBeSkipped | src/utils/block.cpp:17-24 | items that were counted can be skipped, so no worker is started at an offset that cannot be reached |
| Blocks.ParseParallel | src/utils/block.cpp:47-93 | for every thread count and every input that survives counting, the concatenated results are the sequential parse, or both reject |
| Blocks.LaunchWorkers | src/utils/block.cpp:53-86 | the workers' results joined in order are the parse of the whole run |
| Blocks.Collect | src/utils/block.cpp:88-92 | joining fails exactly when some worker failed, and keeps the order otherwise |
| Blocks.CountLoop | src/utils/block.cpp:17-24 | the counting loop agrees with the specification, failures included |
| Blocks.ParseBytes | src/utils/block.cpp:4-137 | the constructor from bytes agrees with the sequential specification for every thread count, the parallel path included |
| Blocks.WriteBlock | src/utils/block.cpp:155-185 | appending the sections and patching the offset in place writes the specified form |
| Blocks.Draft.constructor | src/utils/block.h:104-105 | an empty unfinalized block |
| Blocks.Draft.AppendTx | src/utils/block.cpp:189-196 | appends unless finalized, and touches nothing else |
| Blocks.Draft.AppendTxValidator | src/utils/block.cpp:198-205 | appends unless finalized, and touches nothing else |
| Blocks.Draft.Finalize | src/utils/block.cpp:207-228 | closes once and only with a timestamp not older; roots, randomness and recovered key then match the contents, which stay as they were |
| Abi.RoundTrip | src/contract/abi.cpp:131-376 | for every list of arguments of the eight kinds, `bytes[]` with its second level of offsets included, decoding the encoding with matching types gives back the list, also behind a four-byte selector |
| Abi.PieceIsFound | src/contract/abi.cpp:131-176 | in every mix of static and dynamic pieces the i-th head is at 32 * i and leads to the i-th tail |
| Abi.ArgIsDecoded | src/contract/abi.cpp:179-350 | an argument of any kind is decoded wherever its head and tail stand in the data |
| Abi.ElementIsFound | src/contract/abi.cpp:305-350 | each element of a `bytes[]` is found through its own offset |
| Abi.OffsetStepIsTailSize | src/contract/abi.cpp:147-175 | what is added to the offset, however it is computed, is the size of the tail |
| Abi.EncodeArgs | src/contract/abi.cpp:131-177 | the encoder's loop, with `nextOffset` always head size plus tails so far, yields the encoding |
| Abi.WriteBytes | src/contract/abi.cpp:19-25 | length word and bytes padded to whole words, empty bytes taking one |
| Abi.WriteUint256Arr | src/contract/abi.cpp:27-33 | the loop writes length and items |
| Abi.WriteAddressArr | src/contract/abi.cpp:35-41 | the loop writes length and items |
| Abi.WriteBoolArr | src/contract/abi.cpp:43-49 | the loop writes length and items |
| Abi.WriteBytesArr | src/contract/abi.cpp:51-74 | offsets counted in padding words are where the items really are |
| Abi.PadSize | src/contract/abi.cpp:20-21 | the do-while loop finds the least positive multiple of 32 that is large enough |
| Abi.ReadItems | src/contract/abi.cpp:237-249 | the item loop reads consecutive words, or fails at the first unreadable one |
| Abi.ReadArray | src/contract/abi.cpp:222-250 | array decoding through offset and length, with its size check |
| Abi.ReadBytesArr | src/contract/abi.cpp:305-350 | the loop over element offsets agrees with the specification |
| Abi.DecodeArgs | src/contract/abi.cpp:352-376 | the decoder's loop returns all arguments or fails at the first that cannot be decoded |
| AbiLayout.EncodingIsStandard | src/contract/abi.cpp:131-177 | every encoding is laid out as the ABI specification says: the head of argument i at 32 * i is the argument or the offset, the sum of what stands before it, of its tail |
| AbiLayout.TailIsStandard | src/contract/abi.cpp:19-74 | and every tail is its length and its padded bytes, its words, or for `bytes[]` offsets of its own and the strings they lead to (empty strings padded by one word) |
| AbiAccepts.DecodesExactly | src/contract/abi.cpp:179-376 | any string decodes to a list of arguments if and only if they have the types asked for and each is what stands at its word: numbers, addresses and truth values in place, the others through offsets and lengths below 2^64 that stay inside the data |
| Calls.TokenCallIsUnderstood | src/contract/erc20.cpp:88-103 | call data built for a token operation is decoded by the token as that operation, so a wrapper's nested call does what the wrapper meant |
| Calls.WrapperCallIsUnderstood | src/contract/erc20wrapper.cpp:48-62 | likewise for the wrapper's functions |
| Calls.WithdrawalIsUnderstood | src/contract/nativewrapper.cpp:106-110 | likewise for a native withdrawal |
| Calls.CreationIsUnderstood | src/contract/contractmanager.cpp:59-227 | a creation call builds an ERC20 or a native wrapper exactly when the decimals fit a byte, the ERC20's caller then holding the whole supply, nobody else anything and nobody an allowance; a wrapper is created owing nothing |
| Calls.TokenCallsExactly | src/contract/erc20.cpp:88-103 | a token understands call data as an operation if and only if it is that function's four bytes and arguments that decode to it |
| Calls.WrapperCallsExactly | src/contract/erc20wrapper.cpp:48-62 | and a wrapper likewise |
| Overlay.CopyIsInvisible | src/contract/variables/safeunorderedmap.h:44-56 | a read changes neither what is visible nor what a commit would install, and sees exactly the visible entry |
| Overlay.CommitInstallsVisible | src/contract/variables/safeunorderedmap.h:672-685 | a commit installs exactly the visible map if and only if no pending key is erased |
| Overlay.RevertRestoresBase | src/contract/variables/safeunorderedmap.h:691-695 | after a revert the base is visible again |
| Overlay.StepRefines | src/contract/variables/safeunorderedmap.h:522-695 | each operation answers and acts like the same operation on a plain map with a snapshot |
| Overlay.RunRefines | src/contract/variables/safeunorderedmap.h:31-101 | so does every run in which no erased key is written before the next revert |
| Overlay.RewritesAreLost | src/contract/variables/safeunorderedmap.h:672-685 | that condition is exact: an operation leaves a state whose commit installs what is visible if and only if it writes no erased key |
| Overlay.RewriteAfterCommitIsLost | src/contract/variables/safeunorderedmap.h:680-683 | a key erased in one call and written in the next is visible and then dropped by the commit |
| Overlay.EraseCount | src/contract/variables/safeunorderedmap.h:522-528 | the number erase returns is the plain map's exactly when the key was pending or absent |
| DynamicContract.Merge | src/contract/variables/safeunorderedmap.h:675-679 | merge and the overwriting loop together yield base overridden by pending |
| DynamicContract.EraseAll | src/contract/variables/safeunorderedmap.h:680-682 | the loop removes exactly the erased keys |
| DynamicContract.SafeMap.CheckKeyAndCopy | src/contract/variables/safeunorderedmap.h:44-56 | the lookup's effect on the four fields |
| DynamicContract.SafeMap.CheckKeyAndCreate | src/contract/variables/safeunorderedmap.h:62-78 | creation's effect on the four fields |
| DynamicContract.SafeMap.CheckKeyAndThrow | src/contract/variables/safeunorderedmap.h:85-101 | throws exactly when the key is not visible |
| DynamicContract.SafeMap.CommitChanges | src/contract/variables/safeunorderedmap.h:672-685 | the new base and the reset fields, erased keys kept |
| DynamicContract.SafeMap.RevertChanges | src/contract/variables/safeunorderedmap.h:691-695 | pending and erased keys dropped |
| DynamicContract.SafeMap.Perform | src/contract/variables/safeunorderedmap.h:522-666 | every operation of the object is the specified step, reply included |
| DynamicContract.ReadsKeepSettled | src/contract/variables/safebase.h:39-46 | a variable that is not registered has only been read and still shows its base |
| DynamicContract.Contract.Execute | src/contract/dynamiccontract.h:35-37 | an operation registers its variable at most once, exactly when it may have changed |
| DynamicContract.Contract.UpdateState | src/contract/dynamiccontract.h:94-105 | every registered variable is committed or reverted, the others untouched, and nothing stays registered |
| DynamicContract.Contract.RunBody | src/contract/dynamiccontract.h:144-158 | any sequence of operations leaves all bases alone and shows what plain maps would hold, throwing exactly when they would |
| DynamicContract.Contract.EthCall | src/contract/dynamiccontract.h:143-164 | a throwing or non-committing call leaves every committed variable unchanged; a committing one installs exactly what the function would have done to plain maps |
| Ledger.MoveFacts | src/contract/erc20.cpp:137-140 | a transfer keeps the sum and changes two balances by the amount, also to oneself |
| Ledger.MoveSucceeds | src/contract/erc20.cpp:137-140 | within a sum below 2^256 a transfer fails only for want of funds |
| Ledger.TokenStepKeepsSum | src/contract/erc20.cpp:137-164 | no token operation creates or destroys tokens |
| Ledger.TokenStepEffects | src/contract/erc20.cpp:137-164 | each operation, if it succeeds, changes exactly the balances and the one allowance it names, by exactly its amount |
| Ledger.NeverApprovedIsKept | src/contract/erc20.cpp:142-164 | an address that never approves keeps zero allowances whoever acts |
| Ledger.OthersCannotSpend | src/contract/erc20.cpp:137-164 | such an address loses tokens only by its own calls |
| Ledger.Minted | src/contract/erc20.cpp:107-110 | at creation the creator holds the whole supply, nobody else anything, and nobody may spend for another |
| Ledger.TokenContract.TransferTokens | src/contract/erc20.cpp:137-140 | the two checked updates, or nothing |
| Ledger.TokenContract.ApproveSpender | src/contract/erc20.cpp:142-144 | sets one allowance |
| Ledger.TokenContract.TransferTokensFrom | src/contract/erc20.cpp:160-164 | the three checked updates, or nothing |
| TokenScripts.ScriptInstalls | src/contract/erc20.cpp:137-164 | the lookups and assignments of transfer, approve and transferFrom, performed on plain maps of balances and allowances, are the specified step of both |
| TokenScripts.CallOperation | src/contract/dynamiccontract.h:143-164 | any of the three run as a contract call over the two overlays, throwing at the checked operation that fails, commits exactly that step when it returns and the call commits, and otherwise leaves both variables as they were |
| Contracts.CallKeepsSound | src/contract/erc20.cpp:137-164 | a token call of a sender who is no contract keeps supply, allowances and every wrapper's cover |
| Contracts.NestedCallKeepsRest | src/contract/contractmanager.cpp:466-486 | a wrapper's own token call leaves all other debts of all wrappers covered |
| Contracts.WrapperStepIsSafe | src/contract/erc20wrapper.cpp:83-122 | withdraw, transferTo and deposit keep every ledger covered and are atomic across both contracts: a failed call has changed nothing, so the late addition never overflows |
| Contracts.PayOutSucceeds | src/contract/erc20wrapper.cpp:83-117 | a withdrawal succeeds if and only if the ledger entry exceeds the amount; the token never refuses |
| Contracts.WrapperStepEntries | src/contract/erc20wrapper.cpp:83-122 | a withdrawal or transfer takes exactly the amount off the caller's entry for the token, a deposit adds it, and no other entry of any wrapper changes |
| Contracts.WrapperStepTokens | src/contract/erc20wrapper.cpp:83-122 | the same amount moves in the token, from the wrapper to the receiver or from the depositor to the wrapper, and in no other token |
| World.SendTokensFacts | src/contract/contractmanager.cpp:504-513 | a successful send moves the amount from wrapper to holder, both holding at least the amount before |
| World.CallKeepsHealthy | src/contract/contractmanager.cpp:295-355 | a contract call keeps solvency and backing, never meets the haywire exception, and leaves every contract as it was when it throws |
| World.HaywireIsUnreachable | src/core/state.cpp:345-352 | whatever the flag was left at, no transaction meets the haywire exception |
| World.TransactionKeepsHealthy | src/core/state.cpp:111-139 | every transaction of a sender who is no contract keeps all contract invariants |
| World.RunIsHealthy | src/core/state.cpp:111-139 | over every run: ERC20 balances sum to supply, wrapper ledgers are covered, native wrapper tokens are backed by its native balance |
| World.GenesisIsHealthy | src/core/state.cpp:3-49 | a world without contracts satisfies them |
| World.TransactionTotal | src/core/state.cpp:111-139 | the native total changes by exactly minus gas limit times fee cap of a covered debit, plus the value a failed debit or throwing contract call mints |
| World.TransactionEffects | src/core/state.cpp:111-139 | the sender's nonce grows by one whatever happens, nobody else's changes, and nobody else but a contract can lose balance |
| World.DeriveStringIsInjective | src/contract/contractmanager.cpp:46-57 | below 128 contracts the hashed string tells caller and contract count apart |
| World.DerivedAddressRepeats | src/contract/contractmanager.cpp:46-57 | from 128 contracts on the derived address stays the same |
| World.ContractsAreFew | src/contract/contractmanager.cpp:46-96 | so no run ever has more than 129 contracts |
| Transactions.TokenTransaction | src/contract/contractmanager.cpp:330-355 | an encoded token operation sent to an ERC20 or native wrapper is that operation by the sender |
| Transactions.WrapperTransaction | src/contract/contractmanager.cpp:330-355 | an encoded wrapper operation sent to a wrapper is that operation by the sender |
| Transactions.MisdirectedTransactions | src/contract/dynamiccontract.h:143-164 | token operations sent to a wrapper, and wrapper operations sent to a token, throw and change nothing |
| Transactions.DepositTransaction | src/contract/nativewrapper.cpp:173-175 | a native deposit gives the sender as many tokens as units came with the call, or throws when they would not fit |
| Transactions.WithdrawTransaction | src/contract/nativewrapper.cpp:177-180 | a native withdrawal exchanges tokens for native units one to one, exactly when holder, wrapper and the receiver check allow it, and changes nothing otherwise |
| Execution.Executor.PopulateBalance | src/contract/contractmanager.cpp:488-497 | the overlay gets the account's balance once |
| Execution.Executor.Send | src/contract/contractmanager.cpp:504-513 | the checked transfer in the overlay |
| Execution.Executor.ProcessContractPayable | src/core/state.cpp:345-352 | the loop installs exactly the overlay's balances, nonces kept |
| Execution.Executor.NestedCall | src/contract/contractmanager.cpp:466-486 | the called contract is changed at once or not at all |
| Execution.Executor.PayOutOf | src/contract/erc20wrapper.cpp:83-117 | the steps of withdraw and transferTo are the step whose effect on entries and tokens `Contracts.WrapperStepEntries` and `Contracts.WrapperStepTokens` give |
| Execution.Executor.DepositInto | src/contract/erc20wrapper.cpp:119-122 | the steps of deposit have the specified effect on both contracts |
| Execution.Executor.CallNative | src/contract/nativewrapper.cpp:173-180 | deposit and withdraw of the native wrapper, overlay handed over and cleared |
| Execution.Executor.Call | src/contract/contractmanager.cpp:295-355 | dispatch, outcome and resulting world, overlay empty again |
| Execution.Executor.Process | src/core/state.cpp:111-139 | the try and catch of one transaction are the step whose effects the `Effects` rows give, an escaping exception included |
| Effects.CallTakesEffect | src/core/state.cpp:111-139 | the contracts after a paid transaction are those its call left if the call returned, and those before it otherwise |
| Effects.PlainCallAccounts | src/core/state.cpp:111-139 | and after a call that is not payable the sender has paid value and fee, the contract has the value, and nobody else anything else; if the call threw, the sender has the value back and the contract keeps it |
| Effects.TransferIsMade | src/contract/erc20.cpp:137-140 | a transaction with the bytes of a token transfer moves that amount if the sender has it, and changes no other balance, no allowance and no other contract |
| Effects.ApprovalIsMade | src/contract/erc20.cpp:142-144 | one with the bytes of an approval sets that one allowance |
| Effects.TransferFromIsMade | src/contract/erc20.cpp:160-164 | one with the bytes of transferFrom moves the owner's tokens and takes the amount off the sender's allowance, if both suffice |
| Effects.WrapperEntriesAreMade | src/contract/erc20wrapper.cpp:83-122 | one with the bytes of a wrapper call changes exactly the sender's entry, by the amount, if the wrapper allows it |
| Effects.WrapperTokensAreMoved | src/contract/erc20wrapper.cpp:83-122 | and exactly that amount in the token |
| Effects.DepositIsMade | src/contract/nativewrapper.cpp:173-176 | a native deposit exchanges the value for as many tokens |
| Effects.WithdrawalIsMade | src/contract/nativewrapper.cpp:177-180 | a native withdrawal exchanges tokens for native units of the wrapper's if the sender has the tokens and the test of sendTokens passes, and otherwise leaves every contract as it was |
| Effects.CreationIsMade | src/contract/contractmanager.cpp:59-100 | one with the bytes of an ERC20 creation adds one token at the derived address, all supply with the chain's owner, and changes no other contract; if the address is taken or the decimals exceed a byte, none |
| Effects.DerivedFrom | src/contract/contractmanager.cpp:46-57 | that address is the last 20 bytes of the hash of 0xd5, the caller and the count; from 128 contracts on (there are never more than 129) of 0xd6, the caller and 0x81, whatever the count |
| State.ShortcutIsSound | src/core/state.cpp:72-109 | accepting what is in the mempool agrees with the full check, or two different signed transactions share a hash |
| State.VerdictMeans | src/core/state.cpp:72-109 | a transaction passes exactly when its account exists, holds value plus gas limit times fee cap and has its nonce; a wrong nonce is reported only to those who can pay, an exception exactly when the sum passes 2^256 |
| State.AddedExactly | src/core/state.cpp:279-287 | addTx takes a new transaction in exactly then, under the hash of its signed form, and touches nothing else |
| State.RefreshedExactly | src/core/state.cpp:141-163 | after a block the mempool holds exactly what it held, was not in the block and passes now |
| State.NonceCounts | src/core/state.cpp:111-139 | after a block a nonce has grown by the number of its sender's transactions |
| State.DistinctSendersCountOnce | src/core/state.cpp:225-231 | which is one for each sender of a block with one transaction per sender |
| State.TwoFromOneSenderMint | src/core/state.cpp:225-248 | a block with one transaction twice is accepted whenever that transaction passes; if the sender cannot pay it twice the second debit fails and its value is created |
| State.PaidTransactionSucceeds | src/core/state.cpp:111-139 | a covered debit means no exception leaves processTransaction |
| State.StepKeepsNode | src/core/state.cpp:141-163 | after every addTx, block or funding each mempool transaction would pass the full check |
| State.RunKeepsNonce | src/core/state.cpp:237-264 | so it does after every run, and no nonce has gone down |
| State.NoReplay | src/core/state.cpp:190-264 | a transaction accepted in one block is refused after every later run (before 2^64 transactions), or a hash collision |
| World.SenderPaysAtMost | src/core/state.cpp:111-139 | whatever a call does, a sender who can pay loses at most value and fee |
| World.TransferEffects | src/core/state.cpp:111-139 | a transfer between accounts changes each balance by exactly the value and gas limit times fee cap, and the total by the latter |
| Payments.AffordableBlockExecutes | src/core/state.cpp:237-248 | if before the block every sender has what all their transactions in it cost, then every debit is covered, no exception escapes, the world stays sound, and the total falls by the fees but for what is minted |
| Payments.AffordableInAnyOrder | src/core/state.cpp:245-248 | and that does not depend on the order of the transactions |
| Payments.PreStateValidationSuffices | src/core/state.cpp:190-264 | with one transaction per sender it is enough that each can be paid before the block |
| Payments.TransfersArePaidExactly | src/core/state.cpp:111-139 | in a block of transfers every debit is covered if and only if every sender, when their turn comes, has what they had before the block plus what it brought them so far (native total below 2^256) |
| Payments.AffordableIsExact | src/core/state.cpp:111-139 | when nobody both sends and receives: if and only if every sender can pay for all their transactions before the block |
| Payments.AcceptedTransactionsPass | src/core/state.cpp:72-109 | each transaction of an accepted block carries its sender's nonce and can be paid by itself, or its hash collides with a mempool transaction's |
| Payments.AffordableAcceptedBlock | src/core/state.cpp:237-264 | an accepted and affordable block is executed: no exception, every debit covered, every nonce up by the number of its owner's transactions, the total down by the fees but for what is minted, which is nothing exactly when no contract that will throw is sent value, and every mempool transaction passes again |
| Payments.AcceptedBlockExecutes | src/core/state.cpp:190-264 | with one transaction per sender being accepted is enough for all of that, or a transaction hash collides |
| Conservation.TokenReturns | src/contract/erc20.cpp:137-164 | a token function returns if and only if balance and, for `transferFrom`, allowance suffice |
| Conservation.WrapperReturns | src/contract/erc20wrapper.cpp:83-123 | a wrapper function returns if and only if the entry exceeds the amount, or for a deposit the token lets the wrapper take it |
| Conservation.NativeReturns | src/contract/nativewrapper.cpp:173-180 | a deposit always returns; a withdrawal if and only if the tokens cover it and the sender's account holds as much and has room for it after paying for the transaction |
| Conservation.ReturnsIffCallable | src/core/state.cpp:111-139 | any call with any data returns if and only if guards that can be read before the transaction hold |
| Conservation.FeeIffConserves | src/core/state.cpp:111-139 | a transaction lowers the total by exactly its fee if and only if it can be paid and sends no value to a contract that will throw; otherwise by less |
| Conservation.BlockConservesExactly | src/core/state.cpp:237-248 | over a block the total falls by exactly the fees if and only if that holds of every transaction in the world it meets, and it never falls by more |
| Conservation.MisdirectedValueIsMinted | src/core/state.cpp:133-137 | value sent with a token function to a wrapper is created: the wrapper keeps it and the sender gets it back |
| StateObject.StateMachine.ValidateTransaction | src/core/state.cpp:72-109 | the three refusals, the overflow exception and the shortcut |
| StateObject.StateMachine.AddTransaction | src/core/state.cpp:279-287 | the mempool step, keeping the mempool valid |
| StateObject.StateMachine.ValidateNextBlock | src/core/state.cpp:190-235 | accepts exactly blocks that continue the chain, pass the round's check and hold only acceptable transactions |
| StateObject.FollowsMeans | src/core/state.cpp:190-222 | to continue the chain is to be one higher (in 64 bits), name the hash of the latest header, and not be earlier |
| StateObject.StateMachine.RefreshMempool | src/core/state.cpp:141-163 | keeps exactly what is not in the block and passes now; re-validation meets no exception |
| StateObject.StateMachine.ProcessNextBlock | src/core/state.cpp:237-264 | a refused block changes nothing; an accepted one is one higher (in 64 bits), names the hash of the latest header and is not earlier; it is executed in order, becomes the latest and leaves a valid mempool |
| RandomGen.ShufflePermutes | src/utils/randomgen.h:50-58 | for every seed the shuffle is a permutation |
| RandomGen.ShuffleKeepsDistinct | src/utils/randomgen.h:50-58 | a duplicate-free list stays duplicate-free |
| RandomGen.ShuffleDraws | src/utils/randomgen.h:50-58 | the shuffle draws one element after the other out of what is left |
| RandomGen.ShufflePlaces | src/utils/randomgen.h:50-58 | at place i stands the element that the seed hashed i + 1 times picks, modulo their number, from those left; at the first place element sha3(seed) modulo the size |
| RandomGen.AscendingIsCanonical | src/core/rdpos.h:82-82 | a set of validators has one ascending arrangement |
| RandomGen.Generator.ShuffleInPlace | src/utils/randomgen.h:50-58 | the in-place loop computes the shuffle of the rows above and leaves the seed hashed once per element |
| RandomGen.Insert | src/core/rdpos.cpp:41-43 | inserting keeps the list ascending and adds exactly the element |
| RdPoS.ScheduleIsArrangement | src/core/rdpos.cpp:45-49 | the random list is a duplicate-free arrangement of the validators |
| RdPoS.LeaderIsDrawn | src/core/rdpos.cpp:196-208 | the leader is the validator at the hash of the randomness modulo their number |
| RdPoS.ScheduleAgreement | src/core/rdpos.cpp:196-208 | nodes with the same validators and the same latest block hash have the same list, or two headers collide |
| RdPoS.LeaderAgreement | src/core/rdpos.cpp:79-86 | two accepted blocks on one parent have the same signer, or two headers collide |
| RdPoS.EmplacedAllIffDistinct | src/core/rdpos.cpp:117-141 | the map is full exactly when no two commitments share a hash, and then holds every pair |
| RdPoS.CheckReveals | src/core/rdpos.cpp:144-192 | the loop over the map, in any order, accepts exactly when every pair matches |
| RdPoS.ValidateBlock | src/core/rdpos.cpp:66-194 | accepts exactly blocks by the leader with eight transactions at its height, tx i the commitment and tx i + 4 the matching reveal of participant i, and no shared hash |
| RdPoS.AcceptsMeans | src/core/rdpos.cpp:66-194 | to be accepted is to be finalized, signed by the first of the list, and to carry from each of the next four, at the block's height, cfffe746 with the hash of a seed and, four places on, 6fc5a2d6 with that seed |
| RdPoS.MapCheckIsExact | src/core/rdpos.cpp:117-141 | on well-signed transactions of distinct validators the last clause can only fail through a collision |
| RdPoS.CommitmentsFixRandomness | src/core/rdpos.cpp:290-299 | two accepted blocks with the same four commitments have the same randomness, or two seeds collide |
| RdPoS.AcceptedRandomness | src/core/rdpos.cpp:290-299 | the randomness of an accepted block is the hash of the four revealed seeds in the order of the list |
| RdPoS.RandomnessBindsSeeds | src/core/rdpos.cpp:290-299 | and two accepted blocks with one randomness revealed the same four seeds, place by place, or the two strings of seeds collide |
| Round.AddKeepsMempool | src/core/rdpos.cpp:218-270 | the mempool only ever holds transactions of participants for the next height, filed under their hash, at most two per sender with different functors |
| Round.AddedExactly | src/core/rdpos.cpp:218-270 | a transaction is confirmed exactly when the mempool then has it; a new one is taken in exactly when it is for the next height, from one of the four behind the leader, and the first or the second of its sender, with another functor |
| Round.AllAreKept | src/core/rdpos.cpp:218-270 | recognised transactions with different senders or kinds are all kept, in whatever order they arrive |
| Round.MempoolIsBounded | src/core/rdpos.cpp:218-270 | never more than eight, and with eight every participant has two |
| Round.FullMempoolHasAll | src/core/blockchain.cpp:89-92 | a full mempool of recognised transactions has a commitment and a reveal of every participant |
| Round.OneMatchOnly | src/core/rdpos.cpp:249-267 | and only one of each |
| Round.FindTx | src/core/blockchain.cpp:110-121 | one pass finds a match if there is one |
| Round.Select | src/core/blockchain.cpp:108-122 | the selection loop ends with the participants' transactions in list order |
| Round.SelectionStalls | src/core/blockchain.cpp:108-122 | without some participant's transaction it never ends, however many passes are made |
| Round.AssembledBlockIsAccepted | src/core/blockchain.cpp:102-141 | the assembled list passes every order, height and kind check, so the block is accepted exactly when the seeds are the committed ones |
| Round.AssembleBlock | src/core/blockchain.cpp:102-150 | the block holds both selections and the pending transactions, continues the latest block, and is finalized, signed and stamped now unless the clock went back |
| Round.RdPoSNode.constructor | src/core/rdpos.cpp:8-50 | from the stored validators in any order, the list is the schedule after the latest block |
| Round.RdPoSNode.AddValidatorTx | src/core/rdpos.cpp:218-270 | the specified verdict and mempool, invariant kept |
| Round.RdPoSNode.Validate | src/core/rdpos.cpp:66-194 | the check against the node's own list, exact up to a collision |
| Round.RdPoSNode.ProcessBlock | src/core/rdpos.cpp:196-208 | a finalized block starts the next round with an empty mempool and its schedule; another one changes nothing |
| History.HeightsSeparateHashes | src/utils/block.cpp:139-153 | blocks of one chain have different hashes, or two headers collide |
| History.PlaceRoundTrip | src/core/storage.cpp:67-70 | the 44-byte entry of a transaction reads back |
| History.PlaceLayout | src/core/storage.cpp:67-70 | it is block hash, index in 4 and height in 8 bytes, most significant byte first |
| History.SearchTxFinds | src/core/storage.cpp:302-337 | from either side of the blocks, a search finds the first or the last transaction with the hash in the one block that has it |
| History.BlockAnswer | src/core/storage.cpp:232-257 | the answer for a block hash is a block of the history whose header has it, and there is none exactly if no block has |
| History.TxAnswer | src/core/storage.cpp:302-337 | the answer for a transaction hash is the transaction at that index of the block at that height and of that hash, the first or the last there with the hash, and there is none exactly if no block has one |
| History.SearchesAgree | src/core/storage.cpp:302-337 | both searches find the same hashes in the same block and at the same height, and the same transaction unless two signed forms collide |
| History.OneAnswerIffNoRepeats | src/core/storage.cpp:67-71 | memory and database give one answer for every hash if and only if no block repeats a transaction |
| History.OldBlockIsRight | src/core/storage.cpp:232-257 | the database's answer for a block is the block searched for if and only if that one can be read back |
| History.OldTxIsRight | src/core/storage.cpp:324-333 | and its answer for a transaction if and only if that one is read back by its index |
| History.StorableAnswers | src/core/storage.cpp:202-337 | in a history whose blocks can be stored every answer from the database is that of a search |
| History.RepeatedTransaction | src/core/storage.cpp:67-71 | a block with one transaction twice is found at index 0 in memory and at index 1 in the database |
| Storage.AddedTxs | src/core/storage.cpp:141-144 | indexing a block keeps the first of its transactions with each hash and changes no other entry |
| Storage.PutTxsFacts | src/core/storage.cpp:65-72 | saving a block leaves the entry of the last of its transactions with each hash |
| Replay.SpentIsNeverAccepted | src/core/state.cpp:72-109 | once the sender's nonce is past a transaction's, no block accepted later has its hash, or signed forms of the run collide |
| Replay.AcceptedBlocksShareNothing | src/core/state.cpp:190-264 | blocks accepted in one run share no transaction hash, or signed forms of the run collide (before 2^64 transactions) |
| Replay.AcceptedHistorySharesNoTx | src/core/storage.cpp:120-145 | so the history of accepted blocks is one that lookups by transaction hash can serve |
| Reload.ParsedIsAcceptable | src/utils/block.cpp:4-137 | everything parsed is finalized, signed throughout, of one height, its signature in range, nonces and gas limits in 64 bits and chain ids not 0 |
| Reload.AcceptedExactly | src/utils/block.cpp:4-137 | and every such block is what some bytes parse to |
| Reload.ReloadsExactly | src/utils/block.cpp:155-185 | a block is parsed back from its own serialization if and only if it is of that kind, none of its data is 55 bytes long and every payload is longer than that |
| Reload.StorableExactly | src/core/storage.cpp:106-118 | under the same condition each of its transactions is read back by index, if the 32-bit steps fit |
| Reload.TxReadsExactly | src/core/storage.cpp:106-118 | one transaction is read back by its index if and only if its own data is not 55 bytes long and its payload is longer |
| Reload.ReceivedIsStorable | src/core/storage.cpp:48-85 | a block received from the wire can be stored if and only if no data is 55 bytes long and every payload is longer than that |
| Reload.AcceptedAndLost | src/core/storage.cpp:55-57 | every other block of that kind is accepted and not read back |
| Reload.LongFormBlockIsLost | src/utils/tx.cpp:153-161 | for one, a block whose only transaction has 55 bytes of data |
| Reload.LostBlockIsRefused | src/utils/block.cpp:4-137 | such a block is refused when read back, not taken for another one, or hashed strings collide |
| Reload.SavedBlocksReload | src/core/storage.cpp:3-46 | so blocks that were accepted and saved are all loaded again if and only if no data is 55 bytes long and no payload that short, and none as another block, or hashed strings collide |
| Storage.Store.Open | src/core/storage.cpp:3-46 | loading a complete database throws exactly when one of the last min(n, 501) blocks cannot be read back (unless one is read as another); otherwise it restores the history with those blocks in memory |
| Storage.LoadRecent | src/core/storage.cpp:34-43 | pushing to the front from the latest block backwards, both checks of each push passing, indexes exactly the recent blocks and their transactions, or fails exactly when one cannot be read back |
| Storage.Store.Save | src/core/storage.cpp:48-85 | the destructor leaves a complete database of the whole history |
| Storage.SaveAndReload | src/core/storage.cpp:48-85 | saving and loading throws exactly when a recent block cannot be read back (unless one is read as another), and otherwise keeps the history |
| Storage.Store.PushBack | src/core/storage.cpp:120-145 | throws exactly on a wrong parent or height; otherwise the history grows by the block, which may repeat transactions and need not be one that can be read back, and every index follows |
| Storage.Store.GetBlock | src/core/storage.cpp:202-257 | by hash, the block a search of the whole history finds if it is in memory; otherwise, from cache or database, what that block's bytes are read as, or the exception |
| Storage.Store.GetBlockAt | src/core/storage.cpp:217-286 | the same by height, nothing above the last block |
| Storage.Store.GetTx | src/core/storage.cpp:288-337 | a transaction with its place, as a search of the whole history finds it: the first of repeated ones if a block in memory has it, otherwise the last, as its bytes are read; the mismatch exception is unreachable |
| Storage.GetTxFromBlockWithIndex | src/core/storage.cpp:106-118 | the walk agrees with the specification on every byte string |
| Storage.InitialDbHolds | src/core/storage.cpp:87-104 | a fresh database is complete for the genesis block |
| Gossip.StepKeepsOnce | src/net/p2p/p2pmanagernormal.cpp:8-37 | every step of every node keeps exactly one write, made or outstanding, for each session of a node that has seen the id, and none for any other |
| Gossip.FloodsOnce | src/net/p2p/p2pmanagernormal.cpp:100-128 | so over every interleaving each node writes an id to each session at most once |
| Gossip.TotalSends | src/net/p2p/p2pmanagernormal.cpp:8-37 | writes made and outstanding are as many as the sessions of the nodes reached, so no more than the sum of degrees |
| Gossip.MarkedNodeIgnores | src/net/p2p/p2pmanagernormal.cpp:100-128 | a message that arrives where the id has been seen has no effect |
| Gossip.StepLowersPotential | src/net/p2p/p2pmanagernormal.cpp:211-262 | every step but a new origination lowers the potential, a handler that broadcasts twice included |
| Gossip.FloodingStops | src/net/p2p/p2pmanagernormal.cpp:211-262 | no run is longer than the initial potential and two steps per later origination |
| Gossip.StoppedFloodIsClosed | src/net/p2p/p2pmanagernormal.cpp:8-37 | a stopped flood in which nothing was lost or refused has reached everyone who has a session with someone it reached |
| Gossip.FloodReachesExactly | src/net/p2p/p2pmanagernormal.cpp:8-37 | such a flood has reached exactly the nodes that sessions lead to from a node that broadcast of its own accord |
| Gossip.FloodFromTheStart | src/net/p2p/p2pmanagernormal.cpp:8-37 | from a fresh network no session is written to twice, and when all writes are made each session of a node reached has been written to; all sends are bounded by the sum of degrees, and the run by the degrees and the broadcasts asked for |
| Gossip.Manager.BroadcastMessage | src/net/p2p/p2pmanagernormal.cpp:8-37 | writes to all normal sessions the first time and to none afterwards |
| Gossip.Manager.HandleBroadcast | src/net/p2p/p2pmanagernormal.cpp:100-128 | however a received broadcast is judged, its id is passed on at most once |
| Gossip.WritesAreEdges | src/net/p2p/p2pmanagernormal.cpp:27-36 | the object's loop writes one message per session of the network model, in order |
| Gossip.EdgesAreNormalSessions | src/net/p2p/p2pmanagernormal.cpp:27-36 | they go to the peers of the sessions with normal nodes, to all of them and nobody else |
| Gossip.FirstCallIsRun | src/net/p2p/p2pmanagernormal.cpp:8-37 | a first call is a run of the network's steps that marks the node and makes exactly those writes |
| Gossip.LaterCallIsRun | src/net/p2p/p2pmanagernormal.cpp:14-22 | a later call is a run that changes nothing but that it is over |

## Left out

- Foreign code (secp256k1, keccak, RocksDB, OpenSSL randomness): uninterpreted functions and, for the database, finite maps whose fixed-width keys stand for what they encode.
- HTTP, JSON-RPC, gRPC, sessions, discovery, options, logging and the thread pool; the snowman VM and RPC stubs.
- The function-header check of the ABI encoder (it never looks at the last type); a read out of bounds of the ABI decoder is a failure.
- ABI strings of 2^31 bytes or more, where the encoder's `int` counters overflow; strings of 2^62 bytes or more anywhere.
- Abi.WriteBytesArr: builds the offset and item strings directly where the original first collects them in vectors; a string's length is taken to fit 256 bits.
- `insert`, `emplace`, iterator erasure and assignment of the map variable, scalar variables, `SafeAddress`; a call that re-enters its own contract.
- DynamicContract.Contract.EthCall: all variables of a contract are maps of one type; the function looked up by its functor is an arbitrary sequence of operations, followed by an optional exception.
- Contract objects in `Contracts`, `World` and `Execution` are values in a map rather than objects with overlay fields; that a call commits at its end or changes nothing is the result about `EthCall`, spelled out for the three functions of an ERC20 by `TokenScripts.CallOperation`.
- Simulated calls (`estimateGas`), views and `ethCall` of the state: the manager's commit flag is not reset after a dynamic call.
- Persistence of balances, allowances, wrapper ledgers and accounts (entries of one owner share one key).
- World.RunIsHealthy: senders are never contract addresses, and contract addresses derived by the creator are never sender addresses; `processTransaction` is only reached by transactions that passed validation, so a missing sender account reads as an empty one.
- `addTx` validates and inserts under two locks; the model makes it one step.
- Payments.TransfersArePaidExactly: the exact condition for covered debits is stated for blocks of transfers; with contract calls, which may pay their sender, `Payments.AffordableBlockExecutes` gives the sufficient one.
- StateObject.StateMachine.ValidateNextBlock: an exception thrown while validating is a refusal.
- The default validator list written on first start, the rdPoS worker that creates validator transactions, and `doValidatorBlock`'s waiting and stopping.
- `Storage::popBack`, `popFront`, `getTxByBlock*` and `blockHeightByHash`, and the periodic save.
- Storage.Store.PushBack: a block that links must bring no header collision (`History.HeightsSeparateHashes`) and no transaction hash of an earlier block (`Replay.AcceptedHistorySharesNoTx`), and has fewer than 2^32 transactions.
- Gossip.FloodingStops: sessions do not change while one id is flooded; closing nodes and broken sessions appear as lost messages.
- Node-list decoding of the P2P encoding.
