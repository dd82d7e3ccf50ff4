# One-time-pad chat: pad bookkeeping and the mod-27 codec

This project models the core of an iOS chat app that encrypts messages with a one-time pad. The app calls the pad a codebook. The alphabet has 27 symbols: `a`–`z` are 0–25 and space is 26. To encrypt a character, the app adds one codebook entry mod 27. To decrypt, it subtracts the entry. A character outside the alphabet is treated as space. The codebook is consumed through two pointers, one for encoding and one for decoding.

The model covers three source files:

- **`Alphabet`**: the `a_to_n`/`n_to_a` tables and the per-character codec shared by the two pad revisions. Swift's truncating `%` is written out as `Rem27`, and both `??` fallbacks are modelled. `Encrypt`/`Decrypt` are the strings that the per-character loops build.
- **`LocalPad`** (`onetimepad/model.swift`): class `Model`.
  - It holds the codebook, `encP`/`decP`, the `error` flag and a FIFO queue of ciphertexts.
  - `Generate` appends random entries. `Enc` refuses to run when the codebook is too short; otherwise it encodes and queues. `Dec` decodes the oldest ciphertext.
- **`ChatPad`** (`onetimepad/ChatModel.swift`): class `ChatModel`.
  - It uses the same codec, but ciphertexts are published to a conversation and read back as a message list.
  - The publish becomes a success/failure input. On failure, `encP` is rolled back.
  - The snapshot listener becomes `OnSnapshot`, which receives the decoded documents.
  - `Dec` walks the message list with `decInd`.
- **`ChatList`** (`onetimepad/Model.swift`, the newer `Model`):
  - `localChats` is a dictionary of chats. Its `didSet` observer keeps `sortedChats` sorted by `latestTime`; the model keeps this as the class invariant `Valid()`.
  - `OnSnapshot`/`MergeDocument` model the per-document merge in `attach()`.
  - `OtherUser` picks the chat's peer, and `Generate` makes a fresh codebook.

Inputs to the model:

- Dates are integer clock readings.
- The signed-in user, the on-device store's dictionary and each document-store snapshot are parameters. A snapshot is a sequence of `Option`s; `None` is a document that failed to decode.
- `Int.random(in: 0...26)` is a nondeterministic choice of a value in 0..26.
- Swift's dictionary subscript returns an optional, so the two tables are modelled as lookups returning `Option`. `TableEntries` ties them to the 27 entries in table order.

Three facts about the code shape the model:

- Pads are retired by advancing `enc_p`/`dec_p` over a codebook that only grows; nothing is cut off its front.
- `ChatModel.enc` moves `enc_p` back when `addDocument` throws (onetimepad/ChatModel.swift:97-99), so a failed publish does not use up codebook entries.
- Both `dec`s index `code` without a bounds check, so the model states the codebook-length condition as a precondition.

## Model

| member | source | states |
|---|---|---|
| `Alphabet.AToN` | onetimepad/model.swift:14 | the lookup `a_to_n[c]`: present exactly for the 27 symbols, and then the position of `c` in the table order "a…z " |
| `Alphabet.NToA` | onetimepad/model.swift:15 | the lookup `n_to_a[n]`: present exactly for n in 0..26, and then symbol n of the table order |
| `Alphabet.TableEntries` | onetimepad/model.swift:14-15 | entry n of the table order "a…z " and the number n map to each other in both tables, for every n in 0..26 |
| `Alphabet.TablesInverse` | onetimepad/model.swift:14-15 | the keys of `a_to_n` are the 27 symbols; the keys of `n_to_a` are exactly 0..26; each table inverts the other |
| `Alphabet.Rem27` | onetimepad/model.swift:42 | Swift's `% 27`: the result differs from the dividend by a multiple of 27, lies in 0..26 for a non-negative dividend, and is non-positive for a negative one |
| `Alphabet.SymbolIndex` | onetimepad/model.swift:42 | `a_to_n[c] ?? 26` is always in 0..26; it names `c` when `c` is a symbol and names space otherwise |
| `Alphabet.SymbolAt` | onetimepad/model.swift:43 | `n_to_a[n] ?? " "` is always a symbol; for n in 0..26 it is the symbol numbered n, and space otherwise |
| `Alphabet.EncIndex` | onetimepad/model.swift:42 | with a key in 0..26, the encode index `(symbol + key) % 27` is in 0..26 and Swift's truncating `%` agrees with the mathematical remainder |
| `Alphabet.DecIndex` | onetimepad/model.swift:58 | with a key in 0..26, the decode index `(symbol − key + 27) % 27` is in 0..26 and Swift's truncating `%` agrees with the mathematical remainder |
| `Alphabet.EncChar` | onetimepad/model.swift:40-44 | with a key in 0..26 the encode index is a key of `n_to_a` (so the fallback is never taken), and the cipher symbol's number is (symbol number + key) mod 27 |
| `Alphabet.DecChar` | onetimepad/model.swift:56-60 | with a key in 0..26 the decode index is a key of `n_to_a`, and the plain symbol's number is (cipher number − key + 27) mod 27 |
| `Alphabet.DecEncChar` | onetimepad/model.swift:40-60 | decoding a cipher symbol with the key that produced it gives back the symbol, or space for a character outside the alphabet |
| `Alphabet.Encrypt` | onetimepad/model.swift:40-45 | the ciphertext the encode loop builds has exactly as many characters as the plaintext |
| `Alphabet.Decrypt` | onetimepad/model.swift:56-61 | the plaintext the decode loop builds has exactly as many characters as the ciphertext |
| `Alphabet.Normalize` | onetimepad/model.swift:42 | the alphabet view of a string: same length, symbols kept, every other character turned into space |
| `Alphabet.CipherIsPlain` | onetimepad/ChatModel.swift:86-91 | with pad entries in 0..26, every cipher character is one of the 27 symbols |
| `Alphabet.DecryptEncrypt` | onetimepad/model.swift:40-61 | decrypting with the same pad entries gives back the plaintext with out-of-alphabet characters turned into space |
| `Alphabet.RoundTrip` | onetimepad/model.swift:40-61 | a plaintext over a–z and space is recovered exactly by decrypting with the same pad entries |
| `Alphabet.LossyOutsideAlphabet` | onetimepad/model.swift:42 | a character outside the alphabet comes back from the round trip as space |
| `Alphabet.ExampleAb` | onetimepad/model.swift:40-45 | "ab" with pad 1, 2, 3, 4, 5 encrypts to "bd", and "bd" decrypts back to "ab" |
| `LocalPad.Model.constructor` | onetimepad/model.swift:17-21 | empty codebook, both pointers 0, no error, empty queue |
| `LocalPad.Model.Generate` | onetimepad/model.swift:23-27 | appends exactly n entries, each in 0..26, and leaves the existing entries unchanged |
| `LocalPad.Model.Enc` | onetimepad/model.swift:29-48 | `error` is set exactly when the plaintext is longer than the unused codebook; then `encP` and the queue are unchanged. Otherwise one ciphertext, `Encrypt` of the plaintext with the entries from `encP` on, is queued and `encP` moves by the plaintext length. The codebook and `decP` are not touched |
| `LocalPad.Model.Dec` | onetimepad/model.swift:50-66 | the oldest ciphertext is dequeued (FIFO) and decrypted with the entries from `decP` on; the plaintext has its length and `decP` moves by that length. Requires a non-empty queue and enough codebook, where the source traps |
| `LocalPad.EncThenDec` | onetimepad/model.swift:29-66 | on a model with an empty queue and equal pointers, `Enc` then `Dec` returns an a–z/space plaintext unchanged and leaves the pointers equal |
| `Wrappers.Somes` | onetimepad/ChatModel.swift:57-66 | `compactMap`: the result holds exactly the present values, is no longer than the input, and equals the input entry by entry when every entry is present |
| `Wrappers.SomesSingle` | onetimepad/ChatModel.swift:57-66 | one entry gives its value when present and nothing when absent |
| `Wrappers.SomesAppend` | onetimepad/ChatModel.swift:57-66 | `compactMap` of a concatenation is the concatenation of the results, so the present values keep their input order and multiplicity |
| `ChatPad.ChatModel.constructor` | onetimepad/ChatModel.swift:29-39 | empty codebook and message list, pointers and `decInd` 0, no error |
| `ChatPad.ChatModel.OnSnapshot` | onetimepad/ChatModel.swift:46-67 | a missing snapshot changes nothing; otherwise `messages` becomes the documents that decoded, in order |
| `ChatPad.ChatModel.Generate` | onetimepad/ChatModel.swift:70-74 | appends exactly n entries in 0..26 and leaves the existing entries unchanged |
| `ChatPad.ChatModel.Enc` | onetimepad/ChatModel.swift:76-101 | `error` is set exactly when the plaintext is longer than the unused codebook; then `encP` is unchanged and nothing is published. Otherwise a message from "bob" carrying `Encrypt` of the plaintext is published, and `encP` moves by the plaintext length if the publish succeeds and is back at its old value if it fails. `decP`, `decInd`, `messages` and `code` are outside its frame |
| `ChatPad.ChatModel.Dec` | onetimepad/ChatModel.swift:103-122 | with no undecoded message it returns "" and changes nothing. Otherwise it decrypts message `decInd` from `decP` on; `decP` moves by the text length and `decInd` by exactly 1. `encP` and `code` are outside its frame |
| `ChatPad.PublishThenDec` | onetimepad/ChatModel.swift:76-122 | a message published by `Enc` and delivered next decodes to the original a–z/space plaintext when `decP` starts where `encP` did |
| `ChatList.SortedViewIsPermutation` | onetimepad/Model.swift:71-75 | a sorted view has one entry per key; every stored chat is in it and every entry is a stored chat |
| `ChatList.InsertByTime` | onetimepad/Model.swift:73 | inserting a key adds exactly that key to the multiset of keys |
| `ChatList.InsertKeepsAscending` | onetimepad/Model.swift:73 | inserting into keys ascending by `latestTime` keeps them ascending |
| `ChatList.SortByTime` | onetimepad/Model.swift:73 | the sort result is a permutation of its input, ascending by `latestTime` |
| `ChatList.ChatsOf` | onetimepad/Model.swift:73 | maps keys to their chats position by position; ascending keys give chats ascending by `latestTime` |
| `ChatList.MergeDoc` | onetimepad/Model.swift:149-165 | an undecodable document or a chat without id changes nothing. Otherwise the id is added to the keys and no other entry changes. A new id stores the chat unchanged; an existing id stores the incoming chat with `newMessage` = whether `latestTime` differs from the stored one |
| `ChatList.MergeAll` | onetimepad/Model.swift:149-165 | merging a snapshot never removes a stored chat |
| `ChatList.Identified` | onetimepad/Model.swift:149-165 | `chats` holds exactly the decoded chats that carry an id, and no more entries than the snapshot |
| `ChatList.MergeAllKeys` | onetimepad/Model.swift:149-165 | after a snapshot, the keys are exactly the old keys plus the ids the snapshot carries |
| `ChatList.MergeAllUntouched` | onetimepad/Model.swift:149-165 | a stored chat whose id no document carries keeps its value |
| `ChatList.MergeAllUnique` | onetimepad/Model.swift:156-163 | for an id carried by exactly one document: a new id is stored as that chat; an existing id gets that chat with `newMessage` = whether `latestTime` changed |
| `ChatList.Model.AsWritten` | onetimepad/Model.swift:80-82 | the initialiser as written: `localChats` is the stored dictionary (or empty) and `sortedChats` is empty |
| `ChatList.AsWrittenInitHidesStoredChats` | onetimepad/Model.swift:71-82 | for a non-empty stored dictionary, an empty `sortedChats` is not its sorted view under any key order |
| `ChatList.Model.constructor` | onetimepad/Model.swift:80-82 | the initialiser with the observer's effect: `localChats` is the stored dictionary (or empty) and `sortedChats` is its sorted view |
| `ChatList.Model.KeysOf` | onetimepad/Model.swift:73 | walking the dictionary yields every key exactly once |
| `ChatList.Model.SetLocalChats` | onetimepad/Model.swift:71-75 | after an assignment to `localChats`, `sortedChats` is its values (one per key) in ascending `latestTime` |
| `ChatList.Model.MergeDocument` | onetimepad/Model.swift:149-165 | one document: `localChats` becomes `MergeDoc` of it, the sorted view is kept, and the chat is kept only if it decoded and has an id; a skipped document leaves `sortedChats` exactly as it was |
| `ChatList.Model.OnSnapshot` | onetimepad/Model.swift:138-166 | a missing snapshot changes nothing, and a snapshot with no identified chat leaves `sortedChats` exactly as it was; otherwise `localChats` is every document merged in order, `chats` is the identified chats, and `sortedChats` is still the sorted view |
| `ChatList.Model.OtherUser` | onetimepad/Model.swift:84-96 | "" with no signed-in user or when every member is the user; otherwise the first member that differs from the user's uid |
| `ChatList.Model.Generate` | onetimepad/Model.swift:98-105 | a codebook of exactly n entries, each in 0..26 |

## Findings

| source | as written | input that shows it | evidently intended | confidence | as-written member | corrected member |
|---|---|---|---|---|---|---|
| onetimepad/Model.swift:71-82 | `init()` assigns `localChats` the stored dictionary. Swift does not run a property's `didSet` observer for assignments in the type's own initialiser, so `sortedChats` stays `[]` | a stored dictionary with one chat, before any snapshot arrives: `localChats` has 1 entry, `sortedChats` has 0 | `sortedChats` lists the stored chats sorted by `latestTime` from the start, as after every other assignment | medium (a Swift language rule; not executed) | `ChatList.Model.AsWritten`, `ChatList.AsWrittenInitHidesStoredChats` | `ChatList.Model.constructor` |

## Left out

- The document store: queries, listener registration, `addDocument`, the collection paths and `print` diagnostics. A publish is a boolean outcome, and a listener callback is a method that receives the snapshot.
- Decoding failures (`try? document.data(as:)`) become `None` documents. A snapshot error only prints in the source; a missing snapshot is `None`.
- Persistence through `ChatsStore` (`storeChatsDictionary` on insert, `retrieveChatsDictionary` in `init`, onetimepad/Model.swift:15-65). The stored dictionary is an input to the constructor.
- The `pendingSC` branch of `attach()` (onetimepad/Model.swift:167-180). It stores a codebook through `ChatStore`, which is not part of this model.
- `handleSharedData` (onetimepad/Model.swift:107-127): file reading, JSON decoding and a document write.
- The `Chat` struct declaration is not part of this model. Its fields are taken from their uses in onetimepad/Model.swift and onetimepad/MainView.swift.
- The quality of randomness: `Int.random` is only constrained to 0..26.
- 64-bit `Int` overflow: pointers and counts are unbounded integers. The pointers never exceed the codebook length.
- Swift `Character`s are grapheme clusters. A `char` stands for one of them, and `count` is the number of characters.
- Lower-casing before `enc` is done by the views, which are not modelled.
- `ChatList.SortByTime`: Swift's `sorted(by:)` does not fix the order of chats with equal `latestTime`. The contract states only ascending order and permutation, and the model picks one order for ties.
- `LocalPad.Model.Dec` and `ChatPad.ChatModel.Dec`: the source's out-of-range traps (empty queue, codebook shorter than the ciphertext) are preconditions rather than modelled failures.
- `LocalPad.Model.Generate`, `ChatPad.ChatModel.Generate` and `ChatList.Model.Generate` require `n >= 0`: Swift's `0..<n` traps on a negative count, and the model states that trap as a precondition rather than a modelled failure.
- Consistency of the pad between the two peers: each instance encodes from its own `encP` over its own codebook, and the code does nothing to keep peers in step.
