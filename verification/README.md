# A verified model of dpwire

dpwire is a client, a command line tool and a device simulator for an e-paper device. This project models its most
intricate parts in Dafny and proves what they promise:

- **Object references** (`References`, `ReferenceFile`, `Candidates`, `ReferenceCache`, `RecordSlices`,
  `ReferenceStore`, `ReferenceProtocol`, `AtomicFile`, `ReferenceDisk`): persistent numbers and short hexadecimal names for device
  objects, kept in a file that many processes share. The fast choice of digits from sorted neighbours is proved equal
  to the all-pairs definition, the cache equal to the file, and numbers permanent in every interleaving with crashes.
- **AES Key Wrap** (`KeyWrap`): the in-place loops against RFC 3394, and each other's exact inverse.
- **Registration** (`DiffieHellman`, `RegistrationCrypto`, `RegistrationWire`, `RegistrationEmulator`,
  `RegistrationTrace`, `Registration`, `RegistrationClient`, `RegistrationKeys`, with `ModularPower`, `Remainders` and
  `Randomness`): the six messages between client and emulator as two state machines, the arithmetic under them, what
  an honest run achieves, and what any sequence of requests can never do.
- **The simulated device** (`DeviceTree`, `DeviceState`, `TreeShape`, `RevisionGuard`): a tree stored twice, as parent
  IDs and as path strings, and when the two agree.
- **The write protocol** (`WriteProtocol`, `DeleteProtocol`): multi-request client operations against that device,
  with any requests of other clients in every gap.
- **Listings** (`GlobalListing` with `Reachability`, `GlobListing` with `GlobChains`, `Pagination`): bounded searches
  over a graph that may have cycles or no end, and paging.

`Results`, `Bytes`, `Bits`, `Text` and `Sorting` hold what these share. A function gives the meaning of each operation, the
method beside it does what the source does to arrays, maps and fields and is proved to have that meaning, and the lemmas
are about the meaning. So that a meaning is not only what its function says, the modules whose names end in `InFull`,
with `KeyWrapSteps` and `DeviceEffects`, say of each operation what it refuses and what it does from its arguments alone
(bits, bytes, characters, attributes, places). `dafny verify dfyconfig.toml` checks everything.

What is assumed, always as a hypothesis of the statement concerned: the block cipher is a pair of mutually inverse
functions under each key; base64 and the PEM encoding of 2048-bit keys decode what they encode, and no certificate is
empty; MACs do not collide among the four messages of a run that depend on the PINs (nothing else assumes that the HMAC
is good, and the hash behind the references may be any function to 64 hexadecimal digits); the group's order is prime
and 2 has that order. Time stamps, random bytes, the answers of the file system and the requests of other clients are
parameters. In `ReferenceProtocol` and `ReferenceStore` a replaced file has an identity (inode, size and time) that no
earlier one had, and nothing else touches the file.

Four places where the code does less than its surroundings suggest, each with its exact condition. Moving a folder into
itself is accepted by the simulator when nothing else is at the new path, and breaks its tree
(`TreeShape.FolderUpdateBreaksExactly`, `TreeShape.MoveIntoItselfHappens`). A reference file may outgrow the size that
can be loaded (`ReferenceCache.SavedLoadsIfSmall`, `ReferenceCache.OutgrowingHappens`). A hash step accepted after the
CA step changes the keys a registration is checked under, and the PIN was not proved for the new ones
(`RegistrationKeys.RegistrationUsesProvedShare`, `RegistrationKeys.UnprovedRegistrationHappens`). The block counter of
`pbkdf2SHA256` wraps at 32 bits without an error (`RegistrationCrypto.BlocksRepeat`); below the limit it is RFC 8018.

## Model

| member | source | states |
|---|---|---|
| KeyWrap.Wrap | internal/crypto/aeskw/aeskw.go:21-44 | the indexed loops over the byte arrays compute section 2.2.1 of RFC 3394 in its shift-register form, for every number of blocks, with the source's length and key checks |
| KeyWrap.Unwrap | internal/crypto/aeskw/aeskw.go:47-74 | the indexed loops, run backwards, compute section 2.2.2 of RFC 3394, integrity check included |
| KeyWrap.WrapRounds | internal/crypto/aeskw/aeskw.go:33-42 | the nested loops use each counter 1, ..., 6n once and in order: six rounds in place are 6n shifts of the register |
| KeyWrap.UnwrapRounds | internal/crypto/aeskw/aeskw.go:60-69 | the same for the inverse loops, from 6n down to 1 |
| KeyWrap.InPlaceStep | internal/crypto/aeskw/aeskw.go:34-41 | overwriting block i of the array is one shift of the array rotated by i blocks, which is why the two forms agree |
| KeyWrap.UnwrapInvertsWrap | internal/crypto/aeskw/aeskw.go:21-74 | unwrapping c gives p if and only if wrapping p gives c, for all inputs of any length: unwrapping succeeds exactly on the image of wrapping |
| KeyWrap.MaskTwice | internal/crypto/aeskw/aeskw.go:38-39 | the exclusive or of the 64-bit counter into the register undoes itself, whatever the counter |
| KeyWrapSteps.WrapIsStepwise | internal/crypto/aeskw/aeskw.go:21-44 | wrapping from the cipher and single bits alone: the initial value, then for t = 1, ..., 6n the cipher on register and block, bit k of the new register the parity of the cipher's bit and the counter's, the rest back into the block visited; and exactly which lengths are refused |
| KeyWrapSteps.UnwrapIsStepwise | internal/crypto/aeskw/aeskw.go:47-74 | unwrapping in the same terms, backwards, with the integrity check at the end |
| KeyWrapSteps.MaskBit | internal/crypto/aeskw/aeskw.go:38-39 | each bit of the masked register is the parity of its bit and that of the 64-bit big-endian counter |
| Bits.BitOfXor | internal/crypto/aeskw/aeskw.go:39 | exclusive or adds bits without carrying |
| Bits.BitOfBytes | internal/wire/registration/crypto.go:47-55 | byte strings are read with the most significant byte first |
| References.AllReferences | profiles/object_references.go:173-201 | sorting the digests and looking at neighbours gives every record the reference of the all-pairs definition: the least number of digits from 6 up that no other device's digest shares, or all 64; for any hash at all |
| References.NeighboursDecide | profiles/object_references.go:182-197 | the digits computed from the sorted neighbours are those of the all-pairs definition, also when whole digests collide |
| References.NeighboursShareMost | profiles/object_references.go:181-192 | in sorted order no digest shares more with a digest than one of its two neighbours does |
| References.UniqueAtLongest | profiles/object_references.go:182-194 | the all-pairs number of digits is one more than the longest prefix shared with anybody, between 6 and 64 |
| ReferenceFile.Validate | profiles/object_references.go:280-306 | the loop with its two sets accepts exactly the files of the right schema whose records are valid, numbered below `next`, and distinct both in number and in device ID |
| ReferenceFile.AssignKeeps | profiles/object_references.go:96-115 | a valid file stays valid through the loop of Assign, every number given before stays with its device, and every entry has a number afterwards |
| ReferenceFile.NumberIsKept | profiles/object_references.go:96-115 | a device has one number for ever |
| ReferenceFile.NumberIsNeverReused | profiles/object_references.go:96-115 | a number names one device for ever |
| ReferenceFile.SortedKeeps | profiles/object_references.go:320-327 | sorting before saving loses, adds and renumbers nothing |
| AssignInFull.AssignedInFull | profiles/object_references.go:96-115 | the outcome from file and entries alone: success exactly for valid entries and enough numbers; the old records in place, one new record for each new device, numbered on from `next` in the order of first mention; every kind that of the last entry about the device; changed exactly when a device is new or had another kind |
| AssignInFull.SortedInOrder | profiles/object_references.go:320-321 | saving puts the records in the order of their numbers and changes nothing else |
| ReferenceStore.ObjectReferenceStore.AssignLoop | profiles/object_references.go:92-115 | the loops with their index map, writing to records where they are and appending, compute the assignment defined by searching the records from the start each time; no array but the given one and new ones is written to |
| ReferenceStore.ObjectReferenceStore.AssignEntry | profiles/object_references.go:97-114 | one turn of the loop: the entry refused, its kind changed in place, a record appended, or nothing; the index map still finds what a search finds |
| RecordSlices.Append | profiles/object_references.go:111 | append writes into the shared array while there is room and otherwise moves to a larger one |
| RecordSlices.Clone | profiles/object_references.go:243-247 | a clone holds the same records in an array that nobody else has |
| ReferenceStore.ObjectReferenceStore.Update | profiles/object_references.go:82-118 | file, cache and outcome of a whole call for any faults of the file system; the array behind the cached records is not written to, although the loop and the sort write in place, so a call that fails leaves the cached records as they were |
| ReferenceStore.ObjectReferenceStore.Save | profiles/object_references.go:320-327 | sorts the records in place and replaces the file with them, or leaves the file |
| ReferenceStore.ObjectReferenceStore.Assign | profiles/object_references.go:82-131 | the same, and every entry gets the reference that the all-pairs definition gives it in the new file, under its own ID and with the kind of the last entry about it; a valid file stays valid and keeps every number |
| ReferenceStore.ShownIsFound | profiles/object_references.go:82-171 | what Assign displays is what Candidates finds: the hexadecimal form finds exactly the object if and only if nobody shares its whole digest, the decimal form always |
| ReferenceCache.AssignedKeeps | profiles/object_references.go:82-131 | the cache stays trustworthy, numbers are kept, and a call that fails without a save changes neither file nor cache; without faults a call on a loadable file fails exactly for a refused entry or exhausted numbers |
| ReferenceCache.AssignedFromEntries | profiles/object_references.go:82-121 | what an Assign leaves in the file is that outcome, sorted if it changed |
| ReferenceCache.AssignedUnderFaults | profiles/object_references.go:82-131 | what each fault of the file system does to file, cache and answer |
| ReferenceCache.LoadedInFull | profiles/object_references.go:249-278 | what loads: nothing, as an empty file, or a valid file of at most 16 MiB |
| ReferenceCache.SavedLoadsIfSmall | profiles/object_references.go:116-121 | what an Assign has saved can be loaded again if and only if its encoding is at most 16 MiB, which save does not check |
| ReferenceCache.OutgrowingHappens | profiles/object_references.go:116-121 | and one Assign on a new store can leave a file that is too large to load, for any encoding that takes a byte for each record |
| ReferenceCache.CacheIsTheFile | profiles/object_references.go:213-241 | a cached load gives what was written last, and what reading the file would give, unless it serves a file that has outgrown the limit |
| ReferenceStore.ObjectReferenceStore.LoadCached | profiles/object_references.go:213-228 | which of error, cache, empty state and file is used; the records returned are in an array of their own |
| ReferenceStore.ObjectReferenceStore.Remember | profiles/object_references.go:230-241 | the cache remembers a copy of the state under the file's identity, or nothing when it cannot look at the file |
| ReferenceStore.ObjectReferenceStore.Load | profiles/object_references.go:249-278 | an absent file is an empty one; an invalid, too large or unreadable one is an error |
| ReferenceStore.ObjectReferenceStore.Candidates | profiles/object_references.go:136-171 | exactly the references that answer the selector, each once, sorted by number; the error cases of selector and file |
| Candidates.DisplayedHexFindsExactly | profiles/object_references.go:136-160 | searching for an object's displayed hex gives exactly that object if and only if no other stored device shares its whole digest |
| Candidates.NumberFindsExactly | profiles/object_references.go:161-170 | searching for an object's number gives exactly that object |
| Candidates.DisplayedParses | profiles/object_references.go:142-164 | both displayed forms are accepted as selectors and mean what was displayed |
| ChecksInFull.HexSelectorInFull | profiles/object_references.go:142-154 | a hexadecimal selector is 0x or 0X with 4 to 64 digits of either case, and means them in lower case |
| ChecksInFull.NumberSelectorInFull | profiles/object_references.go:161-164 | every other accepted selector is a decimal number of 64 bits |
| Candidates.OldHexStillFinds | profiles/object_references.go:136-201 | after any later assignments the old hex is a prefix of the new one and a search for it still finds the object |
| ReferenceProtocol.StepKeepsSane | profiles/object_references.go:82-131 | every step of any process (lock, cached load, append, partial write, rename, remember, the failures of each, crash) keeps every cache in agreement with the file, keeps the file valid, and only extends it |
| ReferenceProtocol.RunIsSane | profiles/object_references.go:82-131 | hence in every world of every interleaving of any number of processes |
| ReferenceProtocol.NumbersAreForEver | profiles/object_references.go:82-131 | between any two moments of any run, crashes included, device and number belong together: neither is ever paired with another |
| ReferenceProtocol.ReaderSees | profiles/object_references.go:249-278 | a reader without a lock, whose look for the file and whose reading are separate steps, fails exactly if the file it looked at was above the size limit, whatever it would read; otherwise it gets a valid file that everything written later extends |
| ReferenceProtocol.AnsweredIsFound | profiles/object_references.go:82-171 | what an Assign displayed, any reader finds from then on in every interleaving: a search for the old hexadecimal form lists the object with its old number, under a form that begins with the old one |
| ReferenceProtocol.AnswersAreForEver | profiles/object_references.go:82-131 | the numbers an Assign answers with are in the file in every later world |
| ReferenceProtocol.UninterruptedAssign | profiles/object_references.go:82-131 | the protocol's steps in a row do to file and cache what one call of Assign does |
| AtomicFile.WriteAll | internal/atomicfile/atomicfile.go:74-86 | all of the data in order, exactly when no write that this takes fails or takes nothing, and otherwise an error and a prefix of the data; it ends however short the writes are |
| AtomicFile.Replace | internal/atomicfile/atomicfile.go:42-72 | it succeeds exactly when permission, creation, chmod, the writes needed, sync, close and rename do; the target gets all of the data or stays as it was, nothing else is touched, and the temporary remains only if removing it fails; in every state in between, where a crash could stop it, the target is old or new |
| ReferenceDisk.Save | profiles/object_references.go:320-327 | the store's one-step save and the replacement in a directory keep step: they fail together, and wherever a crash stops it the path holds the encoding of the old file or of the new one |
| DeviceState.State.CreateFolder | dptest/state.go:249-261 | the whole new state of the maps, as specified in DeviceTree |
| DeviceState.State.CreateDocument | dptest/state.go:263-283 | the whole new state of the maps, as specified in DeviceTree |
| DeviceState.State.UploadDocument | dptest/state.go:285-303 | the whole new state of the maps, as specified in DeviceTree |
| DeviceState.State.UpdateEntry | dptest/state.go:305-348 | the loops that rewrite the subtree in place, in any order, give the simultaneous rewriting that the tree lemmas are about |
| DeviceState.State.CopyDocument | dptest/state.go:350-376 | the whole new state of the maps, as specified in DeviceTree |
| DeviceState.State.DeleteDocument | dptest/state.go:378-391 | the whole new state of the maps, as specified in DeviceTree |
| DeviceState.State.DeleteFolder | dptest/state.go:393-428 | the whole new state of the maps, and the recorded force flag |
| DeviceState.State.PathExistsExceptLocked | dptest/state.go:451-463 | the two loops find a taken path exactly when there is one |
| DeviceTree.ServeKeepsAccounts | dptest/state.go:249-428 | every request, with any arguments: IDs come from the counter and name their entries, contents and documents have the same keys, sizes and revisions are exact |
| DeviceTree.NextIdIsUnused | dptest/state.go:81-82 | an ID about to be given out is nobody's |
| DeviceTree.IdsDiffer | dptest/state.go:99-100 | counters and kinds make different IDs, past six digits too |
| DeviceEffects.CreateFolderInFull | dptest/state.go:249-261 | every attribute of the new folder and nothing else changed |
| DeviceEffects.CreateFolderRefused | dptest/state.go:249-261 | exactly when it is refused: no such parent, or something at its path |
| DeviceEffects.CreateDocumentInFull | dptest/state.go:263-283 | every attribute of the new empty document and nothing else changed |
| DeviceEffects.CopyInFull | dptest/state.go:350-376 | the copy has the content and attributes of its source, and an ID and a place of its own |
| DeviceEffects.CopyRefused | dptest/state.go:350-376 | exactly when a copy is refused |
| DeviceEffects.UploadInFull | dptest/state.go:285-303 | exactly when an upload is refused, and what it writes: content, size, hash, time and a revision one higher |
| DeviceEffects.DeleteDocumentInFull | dptest/state.go:378-391 | exactly when the deletion is refused, and what it removes |
| DeviceEffects.DeleteFolderInFull | dptest/state.go:393-428 | exactly when the deletion is refused, and which entries and contents are left, by path |
| DeviceEffects.UpdateDocumentInFull | dptest/state.go:305-348 | exactly when the update is refused; the stored document has the requested name and parent, or the old ones where empty, the path they make, and every other attribute as before; nothing else changes |
| DeviceEffects.UpdateFolderInFull | dptest/state.go:305-348 | the stored folder is the answered one unless moved below its own path; every other entry follows if its path is below the old one and stays if it is not |
| DeviceEffects.UpdateFolderRefused | dptest/state.go:305-331 | exactly when the update of a folder is refused, and the entry it answers with |
| DeviceEffects.IdsInFull | dptest/state.go:81-82 | IDs are the kind and the counter in six digits or more |
| TreeShape.PrefixIsDescent | dptest/state.go:331-345 | an entry is below a folder by path prefix if and only if it is below it by parent IDs |
| TreeShape.FolderDeletionIsSubtree | dptest/state.go:393-428 | deleting a folder, forced or not, removes exactly the folder and its descendants by parent ID |
| TreeShape.FolderUpdateKeepsShape | dptest/state.go:305-348 | a rename or move of a folder that goes through keeps parents, paths and path uniqueness in agreement if and only if the new parent is not the folder itself or below it |
| TreeShape.FolderUpdateBreaksExactly | dptest/state.go:305-348 | any folder update, accepted or not, breaks that agreement if and only if the new parent is the folder itself or below it and nothing else is at the new path |
| TreeShape.IntoItselfBreaksShape | dptest/state.go:305-348 | whenever a move of a folder into itself goes through, the tree breaks |
| TreeShape.MoveIntoItselfHappens | dptest/state.go:305-348 | and one does go through: the first folder made on an empty device, moved into itself |
| TreeShape.FolderUpdateCarriesSubtree | dptest/state.go:331-345 | a folder update gives each descendant the new path in place of the old, and changes no other path and no other parent |
| TreeShape.ServeKeepsShape | dptest/state.go:249-428 | every request with plain names, other than a move into itself, keeps each entry's parent existing, its path the parent's path plus its name, and all paths different |
| TreeShape.RunKeepsShape | dptest/state.go:249-428 | hence every run of such requests |
| TreeShape.ReachableTreesAreShaped | dptest/state.go:65-72 | and so every tree that such requests reach from an empty device |
| TreeShape.EnclosingFolder | dptest/state.go:441-447 | every slash in an entry's path ends the path of an existing folder |
| RevisionGuard.RevisionGuardsContent | dptest/state.go:285-303 | over any requests of any clients a document's revision never falls, and an unchanged revision means unchanged content |
| RevisionGuard.GoneForEver | dptest/state.go:378-428 | an ID that was given out and is gone stays gone |
| RevisionGuard.ServeGuards | dptest/state.go:249-428 | one request: no ID comes back, and content changes only together with a revision one higher |
| WriteProtocol.CreateMetadata | write.go:117-144 | in every interleaving: exactly when the call fails, is partial or succeeds, and the tree it leaves in each case |
| WriteProtocol.UploadBody | write.go:325-380 | the upload is accepted exactly when the ID, name and revision allow it; the tree it leaves, and the revision it made |
| WriteProtocol.UploadStands | write.go:165-173 | as long as the revision an upload reported is still there, so are its bytes, whatever other clients did |
| WriteProtocol.QuietUploadConfirms | write.go:158-196 | what an undisturbed upload leaves is what its check looks for |
| ChecksInFull.EntryNameInFull | write.go:403-422 | which names are sent, character by character, and that they are sent normalised |
| ChecksInFull.PdfInFull | write.go:297-323 | a body is sent exactly if it begins with the five bytes of a PDF and has at most 1 GiB |
| ChecksInFull.UploadChecksInFull | write.go:158-196 | what is checked before an upload and after it, attribute by attribute |
| ChecksInFull.CreationChecksInFull | write.go:117-144 | what is checked before a creation and after it |
| WriteProtocol.UploadAndVerify | write.go:158-196 | the tree left at every stage; it is verified exactly when the final read shows the size and the revision, and then the device holds exactly the bytes |
| WriteProtocol.CreateAndUpload | write.go:148-174 | in every interleaving, every outcome and the tree it leaves: on success the content under a newly made ID is exactly the caller's at the final read; a failure changes nothing; a partial failure names an ID made by this call, which it does not remove; undisturbed, a valid call succeeds if and only if the two entries it reads back decode |
| WriteProtocol.Replace | write.go:177-197 | in every interleaving, every outcome and the tree it leaves: on success the upload met the target revision and the content is exactly the caller's at the final read; a missed revision changes nothing; undisturbed, a valid call succeeds if and only if the entry it reads back decodes |
| DeleteProtocol.Delete | delete.go:13-29 | in every interleaving, every outcome and the tree it leaves: it succeeds exactly when the document has the target revision as the request arrives, removes nothing else, and the document is absent in every later state |
| DeleteProtocol.DeleteEmpty | delete.go:34-73 | in every interleaving, every outcome and the tree it leaves: at most the target folder is removed, only while it has no child, and the call succeeds exactly then; the folder is absent in every later state |
| ChecksInFull.DeletionChecksInFull | delete.go:34-73 | which folder is taken for one to delete, when it is empty, and that only a 404 confirms |
| ModularPower.NoSmallerPowerIsOne | internal/wire/registration/crypto.go:50-67 | below a prime order q no positive power of the generator is 1 |
| ModularPower.OddPowerOfMinusOne | internal/wire/registration/crypto.go:57-63 | an odd power of p - 1 is p - 1 modulo p |
| DiffieHellman.PublicIsInRange | internal/wire/registration/crypto.go:43-61 | an honest public value is never 0, 1 or p - 1, and so passes the range check |
| DiffieHellman.PublicIsInSubgroup | internal/wire/registration/crypto.go:43-63 | it passes the subgroup check |
| DiffieHellman.HonestSidesAgree | internal/wire/registration/crypto.go:43-67 | for all private keys each side accepts the other's 257-byte or 256-byte encoding and both obtain the same 256 bytes |
| DiffieHellman.Group14IsGroup | internal/wire/registration/crypto.go:18-22 | the prime in the source has the sizes the above needs, given its number theory |
| DiffieHellman.NewDh | internal/wire/registration/crypto.go:24-41 | the first key among eight draws that is not zero, or the error |
| DiffieHellman.DrawnIsPrivate | internal/wire/registration/crypto.go:24-41 | every key drawn is one for which the exchange works |
| DiffieHellman.DrawInFull | internal/wire/registration/crypto.go:24-41 | the key is the first 32 bytes, among the first eight times 32, that are not all zero |
| DiffieHellman.SharedInFull | internal/wire/registration/crypto.go:50-67 | exactly which values of the other side are refused, and the secret as a power in 256 bytes |
| RegistrationCrypto.Pkcs7Pad | internal/wire/registration/crypto.go:143-151 | the loop appends the padding of section 6.3 of RFC 5652 |
| RegistrationCrypto.Pkcs7Unpad | internal/wire/registration/crypto.go:153-169 | the constant-time loop accepts exactly a well-formed padding |
| RegistrationCrypto.UnpadInvertsPad | internal/wire/registration/crypto.go:143-169 | padding comes off again if and only if its length fits a byte, for blocks of any size |
| RegistrationCrypto.PadInvertsUnpad | internal/wire/registration/crypto.go:143-169 | whatever unpads is the padding of the result |
| RegistrationCrypto.DecryptInvertsEncrypt | internal/wire/registration/crypto.go:104-141 | CBC decryption inverts encryption |
| RegistrationCrypto.EncryptInvertsDecrypt | internal/wire/registration/crypto.go:104-141 | and the other way round |
| RegistrationCrypto.Wrap | internal/wire/registration/crypto.go:104-118 | tag, padding, chaining and initialisation vector in the source's order, and the two errors |
| RegistrationCrypto.Unwrap | internal/wire/registration/crypto.go:120-141 | the inverse with all its checks; every slice bound holds |
| RegistrationCrypto.UnwrapInvertsWrap | internal/wire/registration/crypto.go:104-169 | unwrap gives the payload if and only if wrap makes the input from it for some initialisation vector |
| RegistrationCrypto.Pbkdf2 | internal/wire/registration/crypto.go:74-94 | the loops give the first `length` bytes of T1, T2, ..., each the exclusive or of all its iterates, with a wrapping 32-bit block counter |
| RegistrationCrypto.DerivedIsRfc | internal/wire/registration/crypto.go:74-94 | below the counter limit these are the blocks of section 5.2 of RFC 8018 |
| RegistrationCrypto.BlocksRepeat | internal/wire/registration/crypto.go:74-94 | past the limit nothing fails: block 2^32 + n repeats block n |
| RegistrationCrypto.ShorterIsPrefix | internal/wire/registration/crypto.go:74-94 | a shorter key is a prefix of a longer one |
| CryptoInFull.DerivedIsParity | internal/wire/registration/crypto.go:74-94 | the derived key bit by bit: U1 is the HMAC of salt and block number, each next one that of the one before, and a bit of the block the parity of that bit over all of them |
| CryptoInFull.KeysAreDerived | internal/wire/registration/crypto.go:69-72 | 10000 iterations, 32 bytes to authenticate and 16 to wrap with |
| CryptoInFull.EncryptIsChained | internal/wire/registration/crypto.go:104-118 | every block of the ciphertext encrypts the bitwise exclusive or of its plaintext and the block before, or the vector |
| CryptoInFull.WrappedInFull | internal/wire/registration/crypto.go:104-151 | wrapping is that of the data, eight bytes of its MAC and n bytes n, with the vector at the end; it fails exactly for a key of another length than 16, 24 or 32 |
| RegistrationCrypto.Join | internal/wire/registration/registration.go:357-367 | the values one after the other |
| RegistrationEmulator.Emulator.SetPin | internal/wire/registration/emulator.go:46-55 | a valid PIN replaces the PIN and resets the transcript, an invalid one changes nothing |
| RegistrationEmulator.Emulator.ServePin | internal/wire/registration/emulator.go:79-102 | the new transcript and M1 |
| RegistrationEmulator.Emulator.ServeHash | internal/wire/registration/emulator.go:104-141 | the checks on M2, the new transcript and M3 |
| RegistrationEmulator.Emulator.ServeCa | internal/wire/registration/emulator.go:143-177 | the checks on M4 with the PIN proof, the new transcript and M5 |
| RegistrationEmulator.Emulator.ServeRegistration | internal/wire/registration/emulator.go:179-219 | the checks on M6 and what the callback is given |
| RegistrationInFull.PinStepInFull | internal/wire/registration/emulator.go:79-102 | M1 and the transcript from the bytes drawn |
| RegistrationInFull.AcceptedM2IsGood | internal/wire/registration/emulator.go:104-141 | an accepted M2 has the nonce and address of M1, a public value in the group and the MAC over the plain concatenation under the derived key; otherwise nothing changes |
| RegistrationInFull.GoodM2IsAccepted | internal/wire/registration/emulator.go:104-141 | every such M2 is accepted, with exactly this transcript and this M3 |
| RegistrationInFull.AcceptedM4IsGood | internal/wire/registration/emulator.go:143-177 | an accepted M4 has its MAC and the proof of the PIN; otherwise nothing changes |
| RegistrationInFull.GoodM4IsAccepted | internal/wire/registration/emulator.go:143-177 | every such M4 is accepted, with exactly this transcript and this M5 |
| RegistrationInFull.AcceptedM6IsGood | internal/wire/registration/emulator.go:179-219 | an accepted M6 has its MAC and wraps the ID and the key that are registered; otherwise nothing changes |
| RegistrationInFull.GoodM6IsAccepted | internal/wire/registration/emulator.go:179-219 | every such M6 is accepted |
| RegistrationInFull.AnsweredM1IsGood | internal/wire/registration/registration.go:119-145 | the client goes on only with an M1 of the right lengths and a public value in the group |
| RegistrationInFull.GoodM1IsAnswered | internal/wire/registration/registration.go:134-151 | every such M1 is answered with exactly this M2 |
| RegistrationInFull.AnsweredM3IsGood | internal/wire/registration/registration.go:156-181 | the client goes on only with an M3 that has its nonce and the MAC of the session, and with a valid PIN |
| RegistrationInFull.GoodM3IsAnswered | internal/wire/registration/registration.go:156-190 | every such M3 is answered with exactly this M4 |
| RegistrationInFull.AnsweredM5IsGood | internal/wire/registration/registration.go:195-221 | the client registers only with a device that has proved the PIN it committed to in M3, and a certificate that is one |
| RegistrationInFull.GoodM5IsAnswered | internal/wire/registration/registration.go:195-248 | every such M5 is answered with exactly this M6 |
| RegistrationTrace.RegistrationFollowsPinProof | internal/wire/registration/emulator.go:46-219 | whatever requests were made, a registration follows, since the last reset, an accepted hash step and then an accepted CA step whose PIN proof was for the PIN still in force |
| RegistrationTrace.CertificateComesFromCa | internal/wire/registration/emulator.go:143-177 | a wrapped certificate in the transcript has both steps behind it, in order and without a reset between |
| RegistrationTrace.KeysComeFromHash | internal/wire/registration/emulator.go:104-141 | session keys in the transcript have an accepted hash step behind them |
| RegistrationKeys.RegistrationUsesProvedKeys | internal/wire/registration/emulator.go:104-219 | a registration is checked under the keys of the PIN proof if and only if the last accepted hash step came before the proof or derived the same keys again |
| RegistrationKeys.RegistrationUsesProvedShare | internal/wire/registration/emulator.go:104-219 | in terms of what was sent, where different nonces or public values do not derive the same keys: if and only if the last accepted M2 has the nonce and public value of the last one accepted before the proof |
| RegistrationKeys.SameShareSameKeys | internal/wire/registration/emulator.go:116-131 | an M2 with the nonce and public value of another derives the same keys from the same exchange |
| RegistrationKeys.LaterClientRegisters | internal/wire/registration/emulator.go:104-219 | after the CA step a hash step of any client that answers M1 is accepted whatever the PIN and keeps the certificate, and that client can register |
| RegistrationKeys.UnprovedRegistrationHappens | internal/wire/registration/emulator.go:79-219 | the run from a blank emulator: one client proves the PIN, and any other client, which never does, registers |
| RegistrationKeys.HashReplacesKeys | internal/wire/registration/emulator.go:136-138 | an accepted hash step replaces the session keys and keeps certificate and M5; nothing else but a reset touches the keys |
| RegistrationKeys.SessionKeysSuffice | internal/wire/registration/emulator.go:179-219 | once a certificate is wrapped, any M6 made under the session keys of the moment is accepted |
| RegistrationKeys.RegistrationRepeats | internal/wire/registration/emulator.go:179-219 | one CA step allows any number of registrations: the same M6 is accepted again and again |
| RegistrationClient.Register | internal/wire/registration/registration.go:106-251 | client and emulator, talking to each other step by step, end as the run function says if the client's randomness, PIN provider and key generator do not fail, and otherwise without a registration; the transcript is cleaned up on every path |
| RegistrationClient.DrawnCoinsAreFair | internal/wire/registration/registration.go:106-251 | what the client draws from a long enough stream is what the honest runs above need |
| RegistrationClient.UuidInFull | internal/wire/registration/registration.go:389-398 | the ID is a version 4 UUID of the bytes drawn, dash by dash and digit by digit |
| RegistrationClient.CoinsInFull | internal/wire/registration/registration.go:134-244 | which bytes of the stream become what |
| Registration.FirstMessages | internal/wire/registration/registration.go:119-156 | an honest M1 is accepted and M2 is made from the keys both sides derive |
| Registration.SecondMessages | internal/wire/registration/emulator.go:104-141 | the emulator accepts M2 and both sides hold the same keys and transcript |
| Registration.ThirdMessages | internal/wire/registration/registration.go:157-190 | the client accepts M3 and makes M4 from its PIN |
| Registration.PinDecides | internal/wire/registration/emulator.go:143-177 | the emulator accepts an honest M4 if and only if the two PIN proofs are equal |
| Registration.LastMessages | internal/wire/registration/registration.go:196-250 | with equal PINs M5 and M6 pass, the client has the certificate and the emulator the client's ID and key |
| Registration.HonestRunRegisters | internal/wire/registration/registration.go:106-251 | with one PIN on both sides all six messages pass, the client returns the emulator's certificate, and exactly the returned ID with its key is registered |
| Registration.PinsDecideRun | internal/wire/registration/registration.go:106-251 | an honest run registers if and only if the PINs are equal, given no MAC collision among the four messages they enter; otherwise nothing is registered |
| Reachability.ExploredIsAll | cmd/dp/main.go:905-935 | a set of visited folders that is closed under listing holds everything that can be reached, cycles or not |
| GlobalListing.CollectGlobalDocuments | cmd/dp/main.go:883-952 | for any list function, fixed or not, at most roots + 10000 calls and no folder listed twice; it fails only for a failed listing or an exceeded budget; the documents come in the order of the listings; if the function is fixed, it succeeds exactly when every reachable folder lists and their entries with the documents among the roots are at most 10000, and then gives exactly the reachable documents, each ID once, having listed exactly the reachable folders, depth first |
| GlobalListing.OutcomeIsDecided | cmd/dp/main.go:883-952 | for a fixed function success depends on the reachable folders alone, not on the order in which they are visited |
| GlobalListing.Collector.Visit | cmd/dp/main.go:904-935 | the recursion ends, is charged for what it lists, and explores all it newly visits |
| GlobalListing.AllReachableAreCovered | cmd/dp/main.go:883-952 | nothing reachable from the roots is missed |
| GlobalListing.AddingInFull | cmd/dp/main.go:917-925 | documents are added in the order they are listed, the first of each ID |
| GlobListing.GlobDevice | cmd/dp/selectors.go:214-278 | for any list function at most 10001 calls; if it is fixed, the level-by-level loop gives what the recursive search gives, in order and multiplicity, and succeeds exactly when pattern, root, listings and matches are in order and at most 10000 entries are listed; an error reported did occur |
| GlobListing.ListLevel | cmd/dp/selectors.go:242-272 | one level: exactly when it fails, what it lists, and which entries go on |
| GlobListing.InnerLevel | cmd/dp/selectors.go:239-277 | searching folders depth first is one level and then searching the folders found in it |
| GlobListing.Filter | cmd/dp/selectors.go:173-182 | the filter that overwrites its own slice keeps exactly the wanted entries, in order |
| GlobListing.ResolveGlobObjects | cmd/dp/selectors.go:157-192 | the wanted part of what the glob finds, sorted; all the cases in which it fails |
| GlobListing.SortedByDevicePath | cmd/dp/selectors.go:190 | what it returns is in the order of the displayed paths |
| GlobListing.SplitIsPath | cmd/dp/selectors.go:223 | the segments of a pattern are free of slashes and joined they are the pattern |
| GlobInFull.GlobSegmentsInFull | cmd/dp/selectors.go:214-235 | a pattern is an optional slash, any number of ./ and a path; it is refused exactly for a second slash, an empty path, a bad segment or the document folder at the front, and otherwise all segments of the path are searched for |
| GlobInFull.SegmentsAreUnique | cmd/dp/selectors.go:223 | a path has no other segments |
| GlobInFull.MatchingInFull | cmd/dp/selectors.go:256-262 | exactly the children whose name matches go on, each once and in order |
| GlobInFull.KeptInFull | cmd/dp/selectors.go:173-182 | exactly the wanted entries are kept, each once and in order |
| GlobInFull.TrimRightInFull | cmd/dp/selectors.go:158-160 | all slashes at the end are cut off, and nothing else |
| GlobInFull.SearchInFull | cmd/dp/selectors.go:244-256 | what a search is charged for, and what it takes for one without a failure |
| GlobChains.SearchFindsEnds | cmd/dp/selectors.go:239-277 | the search finds the end of each chain of matching entries, chain by chain |
| GlobChains.ChainsAreAll | cmd/dp/selectors.go:239-277 | the chains are exactly those below the root whose i-th name matches the i-th segment and whose inner entries are folders |
| GlobChains.ChainsNoRepeats | cmd/dp/selectors.go:239-277 | no chain counts twice where no folder lists an entry twice |
| GlobInFull.ChainsInOrder | cmd/dp/selectors.go:239-277 | the chains come in the order of the listings, the topmost difference deciding |
| Pagination.WriteEntryList | dptest/emulator.go:432-456 | the clamped slice is the part of the list from the offset on that the limit allows, never out of bounds |
| Pagination.ListEntries | entries.go:84-125 | composed with the server, for every page size: an unchanging list is returned whole and in order, with max(1, ceil(n / size)) requests; from a changing one every entry returned stood at its place at one of the requests; the loop never stops early |
| Pagination.EnoughRequests | entries.go:97-124 | the number of requests is the ceiling |
| Pagination.DecodesInOrder | entries.go:109-115 | what is returned is the listed entries decoded, position by position, and only if all of them decode |
| Pagination.PageInFull | dptest/emulator.go:443-455 | a page is the clamped slice and no other |
| Pagination.OptionsInFull | entries.go:85-96 | 0 stands for 100, 1 to 1000 for themselves, nothing else is accepted; and which fields are refused |

## Left out

- HTTP, TLS, JSON, multipart bodies, cookies and nonces: requests and answers arrive as they were sent, and transport errors do not occur; authentication of requests to the simulator is left out with them.
- AES, SHA-256, HMAC, RSA, X.509 and PEM are functions about which only what is stated above is assumed; the RSA key that `Register` generates is given.
- Unicode normalisation, case folding, `path.Match` and the validity of UTF-8 are parameters; `ValidId` looks at control characters only among the 8-bit codes. The individual checks of `decodeEntry` on what the device returns are one predicate.
- WriteProtocol.GetDocument: entries keep the path the device gave, where `decodeEntry` trims a slash at its end and normalises it; so a folder with an empty name is not taken for the root here.
- Widths of integers: object numbers are 64 bits wide and run out; the key wrap counter and the PBKDF2 counter wrap; the simulator's ID counter, revisions and sizes are unbounded.
- Group 14: that its order is prime and that 2 has this order are hypotheses of `DiffieHellman.Group14IsGroup`.
- `sort.Slice` is modelled by a stable insertion sort, one of the results it may give; where elements can compare equal another order is possible.
- GlobListing.GlobDevice: which of several failures is reported is not stated, and what a search over listings that change meanwhile finds.
- Pagination.ListEntries: requires a bound on the length of the list over time, since against a list that grows for ever the loop does not end; the entry hash and the field selection are not part of the answer here.
- DeleteProtocol.DeleteEmpty: its listing is one read, since whether the list is empty is settled by the first page.
- WriteProtocol.CreateAndUpload: the reader of the document gives the same bytes each time it is read, and the whole call runs without injected faults; so do the other client operations.
- File permissions, and the JSON text of the reference file: its size is a function of its contents, and a file that does not parse is not distinguished from one that does not validate.
- ReferenceProtocol.NumbersAreForEver: the reference file is not deleted or edited by anybody else.
- TreeShape.ServeKeepsShape: names are not empty and have no slash, as the client's own check makes sure and the simulator's does not.
- DeviceState.State.UploadDocument: attributes of entries that no operation reads back are dropped.
- The remaining client operations (creating folders, renaming, copying, opening), fault injection, look-up by path, the simulator's fixtures, profiles, credentials, pairing and all printing would add only members without difficulty.
- `decodeEmulatorMessage`, response size limits and cancelled contexts in registration.
