# office encryption, modelled and proved

This project models the parts of the repository that turn passwords, streams and
untrusted bytes into documents, and proves what they promise. To check it, run
`dafny verify dfyconfig.toml` with Dafny 4.11.

Four components are modelled.

**The agile pipeline** (`Crypto`, `BlockKeys`, `EncryptParams`, `EncryptionInfo`,
`AgileParser`, `KeyEncryptors`, `WriterReader`, `DocumentText`, `StoredDocument`,
`Streams`, `Segments`, `Integrity`, `Agile`, `AgileEncrypt`, `Container`, `AgileStandard`,
`EndToEnd`, `EndedReader`, `ReaderRuns`). The writer and reader of sections 2.3.4.10 to
2.3.4.15 of [MS-OFFCRYPTO], over readers that may return short, be interrupted, fail, or
have their content replaced between two reads; what each of them gives is a function of
the reader's state. `EndToEnd` proves that what is stored is read, from the bytes of the
container on; `Agile.DecryptTo` proves that no byte is released before a whole verified
pass, and what success means when the stream changes underneath. `AgileStandard` says what
every password, blob, segment and tag is over the bare primitives, with the literal block
keys of the standard; `DocumentText` scans the stored XML without the writer.

**Excel 97 workbooks** (`LegacyCiphers`, `Rc4Headers`, `Rc4Standard`, `Biff`,
`RecordStreams`, `Excel97`, `LegacyContainer`, `LegacyExcel`, `LegacyStandard`,
`LegacyExamples`). The headers and key schedules of the two RC4 families, when a password
is right and when it is wrong, the strict record walk a decrypt makes, the lenient one that
decides whether a workbook is encrypted, their agreement, the in-place rewrite byte for
byte and record type by record type, and the whole decrypt inside a container of streams
and storages.

**Parsers that follow offsets** (`EncryptedSummary`, `SummaryLayout`, `PersistDirectory`,
`PresentationHeader`, `PresentationRoute`, `DataSpaceMap`). Each is proved against a
writer: what is written parses to itself, what parses was written so, and on any bytes the
work is bounded.

**`SeekBufReader`** (`SeekBuf`), over a model of the standard library's buffered reader as
documented, panic included: in step with the reader it wraps over every run in which no
failing seek moves that reader, and otherwise exactly as far as `SeekBufReader.Seek` says;
and what it is for, that a seek landing inside the buffer keeps it and calls nothing.

Conventions. Loops, in-place buffers and objects are methods and classes, each proved equal
to a function; the lemmas are about those functions. The cipher, digests, HMAC and base64
are unknown functions bound by laws (`Crypto.Primitives.Lawful`): lengths, decryption
undoing encryption, base64 undoing itself and keeping to its alphabet. A `Journal`
records, for the proofs, every byte consumed and written and when the first one went out.
`Error.Internal` gathers the refusals that would be faults of the program. What a function
computes is also said apart from its body, in literals: the `Standard` modules,
`RecordStreams`, `StoredDocument` and `PresentationRoute` name no function of the path they
describe but the one they are about.

Where the code and its documentation disagree the model follows the code: the comment at
`src/agile.rs:440-444` has the whole padded verifier input hashed, the code hashes
`saltSize` bytes of it, and so does the model.

Four natural properties are false of the code. Each has the input on which it fails and
the exact condition under which it holds.

- "Certificate blocks never displace the password." A self-closing `keyEncryptor` leaves
  its `uri` in force. It changes no answer unless an `encryptedKey` without a certificate
  mark comes before the next wrapper event (`KeyEncryptors.Exposed`), and then every
  accepted document loses its password to it: `SelfClosingWrapperDisplacesThePassword`,
  `HarmlessExactlyWhenUnexposed`, and `WriterReader.SelfClosingWrapperLosesADocument`.
- "A decrypted workbook holds no FILEPASS." Only the first is erased, so the scan proves
  the output plain while a search of the whole stream may not:
  `Excel97.OutputHoldsNoFilepass` holds exactly for a workbook with one, and
  `LegacyExamples.FilepassSurvives` is one with two.
- "The container is untouched on any error" (`src/excel97.rs:57`). Two kinds of error come
  after the first write. A medium that fails in the middle of the final writes may leave
  any of the four streams a decrypt writes changed, and no other. On a medium that does
  not fail, the one case is a property set that is to be restored under the name of a
  storage: `LegacyExcel.FailsHalfwayExactly`, `UntouchedUnlessStorage`, and
  `LegacyExamples.StorageLosesTheProperties`.
- "What is encrypted from a reader, or released from one, is what the reader gave." A
  reader that reports its end off a segment boundary and then goes on is read in another
  division into segments than its content is cut in. `AgileEncrypt.PackageRead` and
  `Agile.PackageTaken` say of every reader, before the call, which division that is;
  `EncryptTo` and `DecryptTo` prove it of every run, and that it is a cut exactly when no
  end was reported inside a piece (`Segments.CutUnlessEnded`). The cuts are exactly the
  divisions that come back, and that are decrypted as the package is, under all lawful
  primitives: `EndedReader.ExactlyTheCutsComeBack` and `ExactlyTheCutsDecryptAlike`. For
  each of the others `ReaderRuns.SomeReaderComesBackWrong` has the reader whose package
  verifies and comes back different (`TwoBytesAreReadApart` is the shortest), and
  `SecondPassComesBackWrong` the reader of a sound package whose both passes are accepted
  and whose plaintext is not the package's.

## Model

| member | source | states |
|---|---|---|
| Octets.RoundUp | src/agile_encrypt.rs:598-600 | the padding rule: a whole number of blocks, less than one block more, and nothing added to what is whole already |
| Octets.ReadBack32 | src/binary_office.rs:194-201 | a number written little-endian at any offset is the number read there |
| Octets.WriteBack32 | src/data_space_map.rs:94-97 | and the number read at any offset is written as the bytes that are there |
| Crypto.FitIv | src/hash.rs:326-335 | an IV of exactly the block size: the input cut to it, or the input and then bytes 0x36 |
| Crypto.DeriveIv | src/hash.rs:304-316 | an IV exactly when the digest is at least a block long, and otherwise the program's own fault |
| Crypto.HashesByName | src/classify.rs:337-344 | which names in a file are which hash, that no other name is one, and the four digest lengths |
| Crypto.DigestTwoInto | src/hash.rs:182-217 | the slot ends up holding the digest cut to its length |
| Crypto.HmacState.Update | src/hash.rs:258-284 | the state is the concatenation of everything fed, so chunking cannot matter |
| BlockKeys.AesCbcEncrypt | src/agile.rs:895-980 | succeeds exactly for an AES key, a 16-byte IV and whole blocks, and keeps the length |
| BlockKeys.AesCbcDecrypt | src/agile.rs:859-879 | the same condition for decryption |
| BlockKeys.DecryptUndoesEncrypt | src/agile.rs:859-913 | what went out through the seam comes back through it |
| BlockKeys.AesCbcEncryptInPlace | src/agile.rs:941-959 | only the named front of the slot changes, to its encryption, and a refusal changes nothing |
| BlockKeys.AesCbcDecryptInPlace | src/agile.rs:920-936 | only the named front of the slot changes, to its decryption, and a refusal changes nothing |
| BlockKeys.ComputeSpinHash | src/agile.rs:720-757 | the loop over two swapped buffers ends on the last of any chain of hashes that starts with salt and password and puts each round's number before the hash so far |
| BlockKeys.SpinIsTheChain | src/agile.rs:743-757 | the spun hash is the last of every such chain: salt before password, each round's number before the hash |
| BlockKeys.DeriveBlockKey | src/agile.rs:791-813 | a key of keyBits/8 bytes exactly when the digest can carry it, never a padded one |
| EncryptParams.NearestSupportedKeyBits | src/encrypt_params.rs:102-114 | the loop finds the accepted size nearest the one asked for, the larger of two equally near |
| EncryptParams.NearestKeyBits | src/encrypt_params.rs:102-114 | no accepted size is nearer, and among equally near ones it is the largest |
| EncryptParams.CheckKeyBits | src/encrypt_params.rs:419-573 | which of the two refusals a size gets, and that the size suggested is one that is accepted |
| EncryptParams.CheckPair | src/encrypt_params.rs:419-573 | the size named in the refusal is the largest the hash can carry |
| EncryptParams.Params.Validate | src/encrypt_params.rs:419-573 | Ok exactly for the writable tuples, whatever the order of the checks |
| EncryptParams.WritableByNumbers | src/encrypt_params.rs:419-573 | the writable tuples by their numbers: three key sizes, one with SHA-1, salts of 1 to 65536 bytes, ten million rounds |
| EncryptionInfo.DecimalReadsBack | src/agile.rs:1678-1689 | a number printed in decimal parses to itself |
| EncryptionInfo.NumberByPlace | src/agile.rs:1678-1689 | which strings are a number and which: digits only, one plus sign aside, each worth its place, below 2^32 |
| EncryptionInfo.Write | src/encryption_info.rs:148-284 | a document exactly when the tuple is writable and all seven blobs have the lengths it fixes |
| EncryptionInfo.LengthFollowsTheTuple | src/encryption_info.rs:148-284 | two documents for one tuple have equally long streams, whatever their blobs hold |
| DocumentText.TagsAreScanned | src/encryption_info.rs:241-273 | a scan of tags and quoted values, defined on the text alone, finds in every text of plain tags those tags |
| StoredDocument.StreamHoldsTheDocument | src/encryption_info.rs:241-283 | from the stored bytes alone: version 4.4, the reserved word, the declaration, and every tag by its literal name with every value of the tuple and the blobs |
| StoredDocument.EventsComeBack | src/encryption_info.rs:241-283 | and so the events a reader gets from the stored bytes are the document: no attribute, name or value is lost in the writing |
| AgileParser.ParseEncryptionInfo | src/agile.rs:986-1414 | the event loop with its twenty options computes the event-by-event specification the lemmas are about |
| AgileParser.RefusedExactly | src/agile.rs:1598-1689 | which attribute is a number or base64 on which element, and that it is refused exactly when its value is not one |
| AgileParser.Finish | src/agile.rs:1267-1413 | everything a later step relies on holds of whatever the screening accepts |
| AgileParser.AcceptsExactly | src/agile.rs:1204-1413 | the screening accepts exactly when each element declares what it must and the two joins hold, whatever the order of the checks, and each parameter comes from its own element |
| WriterReader.WriterAndReaderAgree | src/agile.rs:986-1414 | a written document is accepted exactly when validate accepts the tuple, and every field comes back on its own element |
| KeyEncryptors.CertificatesNeverInterfere | src/agile.rs:1013-1202 | inserting a non-self-closing certificate block outside a wrapper leaves the parsed parameters, or the error, unchanged; a document with no password encryptor alone may turn into "certificate only" |
| KeyEncryptors.ExactlyOnePasswordEncryptor | src/agile.rs:1013-1202 | whatever parses has exactly one password encryptor |
| KeyEncryptors.SecondPasswordIsDuplicate | src/agile.rs:1013-1202 | two password encryptors are refused in whatever surroundings |
| KeyEncryptors.MalformedIsRefused | src/agile.rs:986-1202 | XML that is not well formed refuses the document, whatever comes before it and is read, or would come after |
| KeyEncryptors.WrapperByItsUri | src/agile.rs:1028-1046 | the last `uri` of a wrapper says what it holds, by the two literal URIs, and any other says neither |
| KeyEncryptors.SelfClosingWrapperDisplacesThePassword | src/agile.rs:1191-1195 | a self-closing certificate wrapper outside a wrapper changes no answer, accepted or not, when no unmarked `encryptedKey` is exposed to it; when one is, every accepted document becomes a certificate-only one |
| KeyEncryptors.HarmlessExactlyWhenUnexposed | src/agile.rs:1013-1202 | for an accepted document the wrapper is harmless exactly when no unmarked `encryptedKey` comes before the next wrapper event |
| WriterReader.SelfClosingWrapperLosesADocument | src/agile.rs:1191-1195 | the failing input: for every writable tuple, an accepted document that the wrapper turns into a certificate-only one |
| Streams.ByteStream.ReadInto | src/cfb_reader.rs:147-158 | one read of the caller's reader, as a function of its state: what it hands out is what leaves its rest, and a short, interrupted or failing one is allowed |
| Streams.ReadAgain | src/cfb_reader.rs:147-158 | an interrupted read is made again and nothing is lost by it |
| Streams.ReadFull | src/cfb_reader.rs:147-158 | the bytes, the state and the end reported that the function of the reader's state says, at the front of the buffer, whose rest is untouched |
| Streams.UnchangingDelivers | src/cfb_reader.rs:147-158 | of a content that stays what it is, `read_full` gets all it asked for or all there is, unless a call fails |
| Segments.CutMore | src/segments.rs:129-157 | adding a segment to a payload of full ones adds it to the cut |
| Segments.CutAt | src/segments.rs:129-157 | how many segments every payload has, and which bytes each one is |
| Segments.CutCoversContent | src/segments.rs:129-157 | the cut joins back to the payload |
| Segments.OnlyOneCut | src/segments.rs:129-157 | pieces that are full except the last are the cut of what they hold: there is only one |
| Segments.CutGoesOn | src/segments.rs:129-157 | one more piece: still a cut exactly when the reader has reported no end off a segment boundary inside the pieces |
| Segments.UnchangingIsCut | src/segments.rs:129-157 | a content that does not change while it is read is read in a cut, whatever else the reader does |
| Segments.SteadyIsCut | src/segments.rs:129-157 | and one whose reads do not fail either, in the cut of as much of it as is asked for |
| Segments.Segmenter.Fill | src/segments.rs:129-157 | decided by the reader's state, whatever short and interrupted reads it meets: the next segment, zeros to the block boundary whatever the slot held, the next index used once, and past the last index a refusal |
| Segments.NewSegmenter | src/segments.rs:99-114 | a segmenter exactly when the block size is within the digest |
| Segments.ZeroTail | src/segments.rs:129-157 | the slot is the segment zero-padded to its block boundary |
| Segments.PieceComesBack | src/agile.rs:655-692 | one encrypted segment decrypts, under its own index, to the padded segment |
| Segments.PayloadComesBack | src/agile_encrypt.rs:347-381 | cutting the ciphertext finds the segments again, and they decrypt to the padded payload |
| Integrity.UnwrapBlob | src/integrity.rs:437-459 | exactly the digest's bytes, or an error naming the blob and never a fault of the program |
| Integrity.NewCheck | src/integrity.rs:327-391 | with an AES key no refusal is a fault of the program |
| Integrity.Finish | src/integrity.rs:404-420 | Ok exactly when the HMAC of everything fed is the declared tag |
| Integrity.SealTag | src/integrity.rs:567-640 | when the blobs can be made and how long they are |
| Integrity.PaddedSlot | src/integrity.rs:567-640 | a secret in a slot zero to the block boundary |
| Integrity.Seal | src/integrity.rs:567-640 | the streamed seal is the seal of the finished tag |
| Integrity.CheckRecoversWhatWasSealed | src/integrity.rs:325-459 | for all four hashes and all AES key lengths, the check built from the two blobs holds exactly the key and the tag sealed |
| Agile.VerifyPassword | src/agile.rs:463-567 | over screened parameters: Ok exactly when both blobs have their lengths, the keys can be derived and the stored hash is that of the stored input; and no refusal is a fault of the program |
| Agile.PasswordIsChecked | src/agile.rs:463-567 | a password passes exactly when the stored hash is that of the stored input without its padding, and otherwise, over blobs of the right lengths, it is WrongPassword |
| AgileStandard.PasswordByTheStandard | src/agile.rs:463-567 | over the bare primitives and any chain of hashes: when a password opens a screened document, when it is the wrong one, and which bytes the session key is |
| Agile.RecoverSessionKey | src/agile.rs:263-294 | over screened parameters, no fault of the program, and a key of the length `<keyData>` declares; which key and when is in `AgileStandard.PasswordByTheStandard` |
| Agile.CheckIntegrity | src/agile.rs:398-433 | each policy's answer for a document with and without the element: refused, NotDeclared, Skipped or Verified, and a check made exactly for the last |
| AgileStandard.TagByTheStandard | src/integrity.rs:327-459 | over the bare primitives: a tag is checked exactly when both blobs hold a digest, and a message passes exactly when its HMAC under the first is the second |
| Agile.ScreenPackage | src/agile.rs:585-653 | the declared size is at most the ciphertext there is, and the session-key disagreement needs a key of another length |
| Agile.DecryptPackage | src/agile.rs:624-692 | under 2^32 segments, exactly the declared number of bytes for every declared size up to the ciphertext there is, and otherwise a refusal that is no fault of the program |
| Agile.Open | src/agile.rs:346-365 | whatever document, password and policy: an AES key of the declared length, or a refusal that is no fault of the program |
| Agile.NoInternalFault | src/agile.rs:346-693 | no document, password, policy or package of at most 2^32 segments makes decrypt report a fault of its own |
| AgileStandard.OpenByTheStandard | src/agile.rs:346-365 | the whole of it up to the package: a document opens exactly when its verifier agrees and its tag can be checked, and to which key |
| AgileStandard.PackageByTheStandard | src/agile.rs:585-653 | a package that decrypts says its length in its first eight bytes and holds no less |
| AgileStandard.ReleasedByTheStandard | src/agile.rs:655-692 | each 4096-byte segment comes out as its decryption under the hash of salt and segment number, cut to the declared length |
| Agile.PackageTaken | src/agile.rs:346-693 | what the two passes take from a reader, or the error they end in: both under the tag, and no fault of the program but the segment counter |
| Agile.SteadyTaken | src/agile.rs:346-693 | a steady reader is taken to its content: the plaintext of the whole-buffer decrypt, or its error before anything is decrypted |
| Agile.HmacPass | src/agile.rs:366-379 | pass 1 reads to the reader's end, releases nothing, and succeeds exactly when what its reads give carries the tag |
| Agile.ReleaseSegment | src/agile.rs:655-692 | the stored bytes are what the HMAC gets, and the decrypted ones, up to what remains, are what the writer gets |
| Agile.ReadPrefix | src/agile.rs:585-653 | the prefix and the length are screened as the function of the reader's state does, on what was really read |
| Agile.ReleaseNext | src/agile.rs:655-692 | one turn of the loop, for each thing the reader can give: the stored bytes hashed, decrypted and released under the index of their place |
| Agile.ReleaseTurn | src/agile.rs:655-692 | one turn keeps the whole state of the loop: what was consumed, fed and released are the pieces so far, and the reader will give the rest |
| Agile.ReleaseBody | src/agile.rs:655-692 | the loop releases the decryption of the pieces the reader gives, cut to the declared size, feeds the HMAC those pieces, and keeps count of the ends reported |
| Agile.DecryptPackageTo | src/agile.rs:585-693 | pass 2 as a whole: its outcome and its pieces are the function of the reader's state; Ok means the bytes decrypted hash to the tag even if the stream changed after pass 1, in pieces that are a cut exactly when no end was reported inside them |
| Agile.ReleaseOpened | src/agile.rs:366-389 | both passes in their order, by the function of the reader's state; with a cut, what is released is the package decryption of the bytes pass 2 read |
| Agile.CutIsThePackage | src/agile.rs:585-692 | pieces that are a cut are what the specification decrypts |
| Agile.OpenPackage | src/agile.rs:346-365 | the steps before the package is touched compute their specification |
| Agile.DecryptTo | src/agile.rs:346-389 | over every run: nothing is written before a whole pass whose HMAC is the declared tag; Ok releases the decryption of what pass 2 read, under its tag and in the pieces decided by the reader, which are a cut exactly when no end was reported inside them, and then it is the package decryption; an error is no fault of the program but the segment counter, and into a writer with room is decided before the call; an error before the first segment leaves the writer as it was; on a steady stream the run equals the whole-buffer function |
| AgileEncrypt.RandomTape.Fill | src/agile_encrypt.rs:612-614 | as many bytes as asked for, from where the last draw ended, or an error |
| AgileEncrypt.Material | src/agile_encrypt.rs:169-301 | for a writable tuple there is material, with the blob lengths the document demands |
| AgileEncrypt.Generate | src/agile_encrypt.rs:169-301 | succeeds exactly when the randomness suffices, and draws salt, input, session key and key-data salt in that order |
| AgileStandard.BlobsByTheStandard | src/agile_encrypt.rs:169-301 | every stored salt and encryptor blob is its own draw, encrypted under the hash of its own literal block key |
| AgileStandard.SealByTheStandard | src/integrity.rs:567-640 | and the two blobs of the tag, over the whole package stream |
| AgileStandard.StreamByTheStandard | src/agile_encrypt.rs:347-381 | the stored package says its length in eight bytes and is as long as its padded content behind them |
| AgileStandard.SegmentByTheStandard | src/agile_encrypt.rs:361-378 | and each segment lies in its place, encrypted under the hash of salt and segment number |
| AgileEncrypt.SealNext | src/agile_encrypt.rs:361-378 | one turn of the writer's loop, for each thing the reader can give: the HMAC and the writer get the same ciphertext of just that |
| AgileEncrypt.SealTurn | src/agile_encrypt.rs:361-378 | one turn keeps the whole state of the loop: what was consumed, fed and written are the pieces so far, and the reader will give the rest |
| AgileEncrypt.SealBody | src/agile_encrypt.rs:356-378 | the loop writes the encryption of exactly the pieces the reader gives, and keeps count of the ends reported |
| AgileEncrypt.EncryptPackageTo | src/agile_encrypt.rs:347-381 | for every length and reader: the HMAC and the writer get the stream of exactly the bytes consumed, in pieces that are a cut exactly when no end was reported inside them; into a writer with room the outcome, each refusal named, is the function of the reader's state |
| AgileEncrypt.PackageRead | src/agile_encrypt.rs:347-415 | the pieces a package comes in, or the error the reading ends in: a division of exactly the length measured |
| AgileEncrypt.SteadyPackage | src/agile_encrypt.rs:347-415 | of a steady reader it is the cut of its content, and each refusal is decided by the two lengths and the counter |
| AgileEncrypt.HeldToLength | src/agile_encrypt.rs:400-415 | which of the two refusals a reader that ended early, or goes on, gets |
| AgileEncrypt.Encrypt | src/agile_encrypt.rs:504-565 | the blobs have the lengths the tuple fixes and the stream is 8 bytes and the padded package |
| AgileEncrypt.LimitIsTight | src/agile_encrypt.rs:388-396 | the stream fits the version 3 container exactly when the package is within 2 GiB - 16 |
| AgileEncrypt.LengthFits | src/error.rs:552-556 | 8 + roundUp(n, 16) is within 0x80000000 exactly when n is within the limit |
| AgileEncrypt.EncryptTo | src/agile_encrypt.rs:504-565 | a refused tuple or size costs no draw and no byte; a valid one reaches no fault of the program; every successful run leaves the two entries of the encryption of the pieces the reader gives, which are a cut exactly when no end was reported inside them; whether a run succeeds is decided before the call; on a steady reader the entries are those of its content |
| AgileEncrypt.DrawKeys | src/agile_encrypt.rs:521-526 | the HMAC key is drawn last, after the material |
| AgileEncrypt.WriteInfo | src/agile_encrypt.rs:570-590 | the document for one tuple and material, around either pair of blobs |
| AgileEncrypt.WriteContainer | src/dataspaces.rs:303-356 | every successful run leaves the document, patched over its placeholder, and the stream of the pieces read; its length refusal is unreachable |
| AgileEncrypt.WriteEncrypted | src/dataspaces.rs:303-356 | for one set of draws, what every successful run leaves in the container |
| AgileEncrypt.PatchDocument | src/dataspaces.rs:331-346 | the finished document replaces its placeholder, whose length it always has |
| AgileEncrypt.SealPackage | src/agile_encrypt.rs:539-564 | the tag sealed is over exactly the stream written, and that is the stream of what was consumed |
| Container.Container.CreateNew | src/dataspaces.rs:314-330 | an existing entry is refused; a failed write leaves part of the bytes at most, and every other entry as it was |
| Container.Container.WriteOver | src/dataspaces.rs:338-345 | a write from the front leaves what it does not reach; a failed one has written part of it at most, and no other entry |
| Container.Container.PatchInfo | src/dataspaces.rs:331-346 | the patch is made exactly when the lengths are equal |
| EndToEnd.VerifierPasses | src/agile.rs:463-567 | the verifier a writer stored passes for the password it was made from, padding excluded from the hash |
| EndToEnd.SessionKeyComesBack | src/agile.rs:263-294 | the session key comes out of its blob at its own length, AES-192's 24 bytes out of 32 included |
| EndToEnd.PolicyAccepts | src/agile.rs:398-433 | the check every verifying policy makes accepts the stream that was written, from whatever pieces |
| EndToEnd.WhatIsWrittenOpens | src/agile.rs:346-365 | whatever pieces a package came in, its document opens, to the session key, and its tag is accepted |
| EndToEnd.PackageComesBack | src/agile.rs:585-693 | the package comes out of its stream at its declared length |
| EndToEnd.WhatIsWrittenIsRead | src/agile_encrypt.rs:504-565 | the round trip, for every writable tuple, password, tape, package within the limit and policy: the package, Verified unless skipped |
| EndToEnd.WhatIsStoredIsRead | src/agile_encrypt.rs:504-565 | the round trip from the stored bytes on: the container's two entries, the one scanned as text, give the package back under every policy |
| EndToEnd.StreamTellsApart | src/encryption_info.rs:148-284 | no two writable tuples, and no two sets of blobs, are stored as the same bytes |
| EndToEnd.WhatWasReadIsRead | src/agile_encrypt.rs:504-565 | the round trip of every successful run, whatever the reader did: pieces that are a cut come back as what was read |
| EndedReader.OtherDivisionsComeBackWrong | src/segments.rs:129-157 | under some lawful primitives, for every tuple, password, policy and division that is no cut, a package of ones is written, verified, and comes back different |
| EndedReader.ExactlyTheCutsComeBack | src/segments.rs:129-157 | a division into segments gives back what was read, whatever that is and under all lawful primitives, exactly when it is a cut |
| EndedReader.ExactlyTheCutsDecryptAlike | src/segments.rs:129-157 | a division of a stored package is decrypted as the package is, under all lawful primitives, exactly when it is a cut |
| ReaderRuns.EveryDivisionIsRead | src/agile_encrypt.rs:347-415 | every division of every package within the limit is what some reader gives, and is accepted |
| ReaderRuns.SomeReaderComesBackWrong | src/agile_encrypt.rs:504-565 | the failing run of the writer: for every division that is no cut, a reader read in it, accepted, verified, and come back different |
| ReaderRuns.TwoBytesAreReadApart | src/segments.rs:129-157 | the shortest such reader, of two bytes |
| ReaderRuns.EveryDivisionIsTaken | src/agile.rs:346-693 | every division of a stored package is what some reader gives to the second pass, behind a first pass that accepts it |
| ReaderRuns.SecondPassComesBackWrong | src/agile.rs:346-693 | the failing run of the reader: for every package of whole blocks and division of its ciphertext that is no cut, both passes accepted and the plaintext not the package's |
| EndToEnd.OneMessageThreeChunkings | src/agile.rs:366-379 | the writer's prefix and segments, pass 1's chunks from byte zero and pass 2's prefix and segments are one byte string |
| LegacyCiphers.XorUndone | src/rc4.rs:59-61 | combining with a keystream byte twice changes nothing |
| LegacyCiphers.XorOfBytes | src/rc4.rs:59-61 | each of the eight bits is set exactly when the two it is made of differ |
| LegacyCiphers.RotationUndone | src/xor_obfuscation.rs:174-181 | rotating right by five undoes rotating left by five |
| LegacyCiphers.RotationSwaps | src/xor_obfuscation.rs:174-181 | the low five bits of a byte end up above the high three |
| LegacyCiphers.DecryptInBlocks | src/rc4.rs:72-86 | every byte under the keystream of its own 1024-byte block, and Ok exactly within 2^32 blocks and when every key used is one RC4 takes |
| LegacyCiphers.ApplyKeystream | src/rc4.rs:91-98 | one block's keystream over a run, and nothing outside it; refused exactly when the block's key is not 5 to 16 bytes long |
| LegacyCiphers.Obfuscator.OpenedClosed | src/xor_obfuscation.rs:174-181 | the decoding step undoes the encoding step of section 2.3.7.3 at every index |
| LegacyCiphers.Deobfuscate | src/xor_obfuscation.rs:174-181 | the run is decoded from the index given, wrapping at sixteen, and nothing outside it changes |
| Rc4Headers.ParseOffice97 | src/rc4_office97.rs:56-98 | three parts of sixteen bytes; no bytes reach a fault of the program |
| Rc4Headers.ParseFixed | src/rc4_cryptoapi.rs:88-263 | a key size of 40 to 128 bits in steps of eight |
| Rc4Headers.ParseVerifier | src/rc4_cryptoapi.rs:88-263 | the lengths of the three parts; over sixty bytes no fault of the program |
| Rc4Headers.ParseCryptoApi | src/rc4_cryptoapi.rs:88-263 | a bounded key size and parts of their lengths; no bytes reach a fault of the program |
| Rc4Headers.CryptoApiSchedule | src/rc4_cryptoapi.rs:275-290 | a schedule exactly for a bounded key size, and then every key is one RC4 takes |
| Rc4Headers.Office97Schedule | src/rc4_office97.rs:110-170 | every key is one RC4 takes |
| Rc4Headers.StoredVerifierPasses | src/rc4.rs:108-137 | what a writer stores for a verifier, from one keystream not reset in between, passes the check |
| Rc4Headers.Office97ReadsBack | src/rc4_office97.rs:56-98 | a written header is parsed to its parts, whatever follows |
| Rc4Headers.CryptoApiReadsBack | src/rc4_cryptoapi.rs:88-263 | and so is a CryptoAPI one, whatever its provider name and what follows |
| Rc4Headers.OpenOffice97 | src/rc4_office97.rs:110-156 | a schedule whose every key RC4 takes, and no fault of the program on any bytes; when and which is in `Rc4Standard.Office97ByTheStandard` |
| Rc4Headers.OpenCryptoApi | src/rc4_cryptoapi.rs:275-300 | a schedule whose every key RC4 takes, and no fault of the program on any bytes; when and which is in `Rc4Standard.CryptoApiByTheStandard` |
| Rc4Standard.Office97Parses | src/rc4_office97.rs:56-98 | which bytes are an Office 97 structure, and where its three fields lie |
| Rc4Standard.Office97ByTheStandard | src/rc4_office97.rs:110-170 | a password opens it exactly when the digest of the opened verifier is the opened hash, one stream behind the other, byte by byte; it is the wrong one exactly when they differ; and the key of every block |
| Rc4Standard.Office97Refused | src/rc4_office97.rs:56-98 | any other structure is refused, and never as a wrong password |
| Rc4Standard.CryptoApiParses | src/rc4_cryptoapi.rs:88-263 | which bytes are a CryptoAPI structure, flags, algorithms, sizes and all, and where its fields lie |
| Rc4Standard.CryptoApiByTheStandard | src/rc4_cryptoapi.rs:275-340 | the same check over SHA-1, the key of every block with the eleven zeros of a 40-bit one, and the flag that leaves the properties clear |
| Rc4Standard.CryptoApiRefused | src/rc4_cryptoapi.rs:88-263 | any other structure is refused, and never as a wrong password |
| Rc4Headers.Office97Opens | src/rc4_office97.rs:110-170 | a header stored for a password opens with it, to the schedule it was made with |
| Rc4Headers.CryptoApiOpens | src/rc4_cryptoapi.rs:275-340 | a header stored for a password, at every key size, opens with it, to the schedule it was made with |
| Biff.BiffRecords.Advance | src/binary_office.rs:412-432 | the iterator yields the walk's next record, its failure or its end, and is exhausted after either |
| Biff.Screen | src/excel97.rs:85-123 | the record a decrypt works on is a FILEPASS of a clean walk |
| Biff.ScreenRecords | src/excel97.rs:85-123 | the first pass, keeping one record and two identifiers, decides as if it had collected every record |
| RecordStreams.WalkReadsBack | src/binary_office.rs:386-432 | the strict walk reads back every stream of records that is written |
| RecordStreams.WalkedIsWritten | src/binary_office.rs:386-432 | and what it walks over cleanly was written so, to the last byte |
| RecordStreams.EncryptedByTypes | src/excel97.rs:85-123 | by record types alone: a BOF, records of the six types that may come before, and a FILEPASS, which is the one that is found |
| RecordStreams.OutOfOrderByTypes | src/excel97.rs:107-123 | a record of another type before it refuses the stream, by that type |
| RecordStreams.OthersByTypes | src/excel97.rs:111-116 | and a stream without BOF in front or without FILEPASS is refused as that |
| Biff.ScanForFilepass | src/binary_office.rs:470-500 | the loop computes the scan's specification |
| Biff.ScanOfRecords | src/binary_office.rs:470-500 | over a clean stream the verdict is the first stray record or the first FILEPASS, whichever comes first |
| Biff.DetectorAgrees | src/binary_office.rs:470-500 | decrypt gets past its walk exactly when the walk is clean and the scan finds that same record; each refusal matched with the verdict |
| Biff.TruncationNeverFlips | src/binary_office.rs:470-518 | a verdict on a prefix is the verdict on the whole, with the record at the same start and its body cut at the prefix's end |
| Biff.NoCutOfOneIsTheOther | src/binary_office.rs:455-500 | no cut of an encrypted workbook is provably plain, and no cut of a plain one encrypted |
| RecordStreams.ScanByTypes | src/binary_office.rs:470-500 | the detector's verdict on every stream of records cut anywhere: past the clear ones the first header decides by its type, whatever is left of its body, and before that nothing does |
| Excel97.RecordsTile | src/binary_office.rs:386-432 | the records of a clean walk lie end to end and every byte is held by its own |
| Excel97.EveryByteIsHeld | src/binary_office.rs:386-432 | every byte of a clean stream is the header or body of a record of the walk |
| Excel97.RewrittenByteForByte | src/excel97.rs:204-237 | byte for byte, by record type: the FILEPASS erased but for its length; headers and the bodies of seven types as they were; the first four body bytes of a sheet record as they were; every other body byte opened under the key of its 1024-byte block, or by the array at the index its record's end selects |
| Excel97.WalkFollowsLengths | src/binary_office.rs:412-432 | streams with the same length fields walk alike |
| Excel97.SameBoundaries | src/excel97.rs:204-237 | the output has the input's records at the input's places, the FILEPASS one alone renamed to zero |
| Excel97.OutputIsProvablyPlain | src/excel97.rs:234-237 | the scan of the output is ProvenAbsent and a second decrypt refuses it |
| Excel97.OutputHoldsNoFilepass | src/excel97.rs:234-237 | the output holds no FILEPASS, and a second decrypt refuses it as not encrypted, exactly when the input held one; with more, the second decrypt names the erased record |
| LegacyExamples.FilepassSurvives | src/excel97.rs:58-253 | the failing input: for every password that can be obfuscated with, a workbook that decrypts to one still holding a FILEPASS |
| LegacyExamples.EmptyFilepassSurvives | src/excel97.rs:85-123 | and the shortest, twelve bytes, whatever the scheme |
| Excel97.LockedWalksTheSame | src/excel97.rs:1-30 | a workbook encrypted by section 2.2.10 keeps its records and passes the same screening |
| Excel97.DecryptRestoresTheWorkbook | src/excel97.rs:201-237 | decrypting a workbook its writer encrypted, under either scheme, gives the workbook with its FILEPASS erased |
| Excel97.RestoreRecord | src/excel97.rs:214-220 | one record's header and clear prefix put back, nothing else touched |
| Excel97.RestoreClear | src/excel97.rs:209-220 | the second RC4 pass over the whole stream |
| Excel97.DeobfuscateRecord | src/excel97.rs:226-230 | one record's body from the index its own end selects |
| Excel97.DeobfuscateRecords | src/excel97.rs:222-231 | the XOR pass over the whole stream |
| Excel97.EraseFilepass | src/excel97.rs:234-237 | the type and body become zero, the length and everything else stay |
| Excel97.Rewrite | src/excel97.rs:201-237 | the whole rewrite is the function `RewrittenByteForByte` describes; a refusal only for more than 2^32 blocks or a key RC4 does not take |
| LegacyContainer.Legacy.Read | src/legacy_container.rs:71-78 | the whole stream when it is within the cap |
| LegacyContainer.Legacy.Overwrite | src/legacy_container.rs:83-97 | in place and only at the same length; a refusal changes nothing, a failed write no other stream |
| LegacyContainer.Legacy.Replace | src/legacy_container.rs:104-116 | the stream is the new bytes, whatever was there, unless a storage has the name, which is refused as existing and changes nothing |
| LegacyContainer.Legacy.Remove | src/legacy_container.rs:119-126 | the stream is gone, or nothing changed |
| LegacyExcel.OpenScheme | src/excel97.rs:126-199 | a scheme that can be applied, obfuscation exactly for type zero, or a refusal that is no fault of the program, whatever the bytes |
| LegacyExcel.OpenXor | src/excel97.rs:127-145 | Ok exactly when both stored words are the password's; otherwise the wrong password, or a record too short to hold them |
| LegacyExcel.OpenRc4 | src/excel97.rs:146-181 | which family opened it, and no fault of the program; exactly when is in `Rc4Standard.FamilyByVersion` |
| Rc4Standard.FamilyByVersion | src/excel97.rs:146-181 | Ok and wrong password exactly as the family of the first four bytes says, 1.1 being Office 97 |
| Rc4Standard.OtherVersions | src/excel97.rs:146-181 | any other version is refused as that version, by both its numbers |
| Rc4Standard.RefusedByName | src/rc4_cryptoapi.rs:148-171 | external encryption, AES and a missing CryptoAPI flag are refused by name, in that order |
| Rc4Standard.SchemeByKind | src/excel97.rs:126-199 | and the two bytes before choose between obfuscation and RC4, with nothing else accepted |
| LegacyExcel.Planned | src/excel97.rs:58-246 | what is to be written, settled before the first write: the workbook keeps its length, and no refusal is a fault of the program |
| LegacyExcel.RestoringStops | src/legacy_container.rs:104-116 | the restored streams are all written exactly when none has the name of a storage |
| LegacyExcel.FailsHalfwayExactly | src/excel97.rs:248-252 | on a medium that does not fail, a decrypt with a plan ends in an error, the container changed, exactly when a stream to restore has the name of a storage |
| LegacyExcel.UntouchedUnlessStorage | src/excel97.rs:58-253 | so with neither property-set name a storage, a plan is always carried out |
| LegacyExamples.StorageLosesTheProperties | src/excel97.rs:248-252 | the failing run: for every password and all primitives, a container whose decrypt ends in an error with the workbook rewritten and the encrypted properties gone |
| LegacyExcel.DecryptChangesWhatItMust | src/excel97.rs:58-253 | the detector found the input encrypted and proves the output plain; nothing outside the workbook, the encrypted summary and the two property sets changes |
| LegacyExcel.ProvenPlainIsRefused | src/binary_office.rs:470-500 | what the scan proves plain is decrypted under no password |
| LegacyExcel.OpenWorkbook | src/excel97.rs:58-199 | everything before the rewrite, writing nothing |
| LegacyExcel.MakePlan | src/excel97.rs:58-246 | everything before the first write computes its specification |
| LegacyExcel.ReadSummary | src/encrypted_summary.rs:89-104 | the summary is asked for exactly when the header says it is encrypted |
| LegacyExcel.WriteRestored | src/encrypted_summary.rs:76-82 | the carrier is removed and each restored stream written, up to one whose name is a storage; whatever the medium does, no other stream changes |
| LegacyExcel.WriteBack | src/excel97.rs:248-252 | the workbook and then the summary, ending where the specification of the writes ends |
| LegacyExcel.Decrypt | src/excel97.rs:58-253 | whatever the medium does: with no plan the container is as it was, and otherwise only the four streams a decrypt writes change; Ok is the specification; no error is a fault of the program; on a medium that does not fail, the run is the plan and its writes |
| LegacyStandard.PlannedExactly | src/excel97.rs:58-246 | a decrypt gets as far as writing exactly when the workbook opens within the cap and its properties, where enclosed, unseal; and what it will write |
| LegacyStandard.RefusedOtherwise | src/excel97.rs:58-199 | every other container is refused as what it is: no workbook, a BIFF5 one, too large, not encrypted, or as its scheme says |
| LegacyStandard.DecryptLeaves | src/encrypted_summary.rs:76-104 | what stands in the container after a decrypt: the workbook rewritten, each property set under its own name, the enclosure gone, or nothing else changed |
| EncryptedSummary.NameReadsBack | src/encrypted_summary.rs:262-271 | each of the two names is recognised from its own UTF-16LE |
| EncryptedSummary.NameIsExact | src/encrypted_summary.rs:262-271 | and from no other bytes of whole code units |
| EncryptedSummary.NameIsSpelled | src/encrypted_summary.rs:262-271 | the two names by their text: a character five and then the name, in UTF-16LE, and no other bytes |
| EncryptedSummary.DescriptorReadsBack | src/encrypted_summary.rs:178-205 | a descriptor is read back from wherever it was written |
| EncryptedSummary.DescriptorWritesBack | src/encrypted_summary.rs:178-205 | what is read is what is written there |
| EncryptedSummary.Unsealed | src/encrypted_summary.rs:108-258 | no stream of bytes makes the parse report a fault of the program |
| EncryptedSummary.RefusedDescriptor | src/encrypted_summary.rs:211-256 | what refuses a descriptor, in order: a storage or another name, a name twice, a place outside the data, a place taken; and nothing else |
| EncryptedSummary.UnsealedIsSound | src/encrypted_summary.rs:108-258 | Ok means two streams at most, distinct names, disjoint extents between prefix and table, and output within what lies between them |
| EncryptedSummary.ReadBounds | src/encrypted_summary.rs:112-147 | the table's bounds lie after the prefix and inside the data |
| EncryptedSummary.DecryptStream | src/encrypted_summary.rs:108-258 | the loop computes the specification and reads three descriptors at most whatever the count says |
| EncryptedSummary.AdmitAll | src/encrypted_summary.rs:172-257 | the loop over descriptors, in step with the specification |
| EncryptedSummary.AdmitNext | src/encrypted_summary.rs:206-256 | one descriptor's checks in their order, keeping what is held sound |
| SummaryLayout.LayoutUnseals | src/encrypted_summary.rs:108-258 | every layout of sections 2.3.5.3 and 2.3.5.4 parses to its streams |
| SummaryLayout.UnsealedIsLaidOut | src/encrypted_summary.rs:108-258 | and everything that parses is such a layout |
| SummaryLayout.SealedUnseals | src/encrypted_summary.rs:108-258 | the parse inverts the writer: names, places and bytes come back under any schedule |
| PersistDirectory.LaterWins | src/binary_office.rs:722-727 | the directory holds exactly what the last entry to name each identifier says |
| PersistDirectory.ParsedIsWritten | src/binary_office.rs:743-762 | what parses is formed, within the identifier space, and is the body to its last byte |
| PersistDirectory.WrittenIsParsed | src/binary_office.rs:743-762 | what is written, within that space, parses to itself |
| PersistDirectory.DirectoryInvertsTheWriter | src/binary_office.rs:728-764 | there is a directory exactly when the body is such a writing, and then it is the fold of its entries |
| PersistDirectory.AtomReadsBack | src/binary_office.rs:728-764 | a written atom is read back wherever in a stream it lies |
| PersistDirectory.ReadRun | src/binary_office.rs:756-761 | one entry's identifiers, or nothing if an offset is missing |
| PersistDirectory.ReadEntries | src/binary_office.rs:740-763 | the nested loops compute the fold |
| PersistDirectory.PersistDirectory | src/binary_office.rs:728-764 | the whole parse computes its specification |
| PresentationHeader.UserEditAtomAt | src/binary_office.rs:692-717 | an atom has one of two lengths, and a session reference exactly with the longer; which fields stand where is in `PresentationRoute.AtomIsRead` |
| PresentationHeader.CryptSessionContainerAt | src/binary_office.rs:773-783 | at most the cap's bytes |
| PresentationHeader.HeaderIsWhereTheLastEntryPoints | src/binary_office.rs:790-798 | the header is the container the last entry naming the session points at, and there is none when no entry names it |
| PresentationHeader.TruncationNeverMisleads | src/binary_office.rs:692-798 | what is found in a prefix is found in the whole |
| PresentationRoute.AtomIsRead | src/binary_office.rs:692-721 | an edit atom is read exactly where its bytes lie, field by field at their literal offsets |
| PresentationRoute.WrittenAtomIsRead | src/binary_office.rs:692-721 | a written atom of either form is read back wherever in a stream it lies |
| PresentationRoute.ContainerIsRead | src/binary_office.rs:773-783 | a session container is read exactly where one lies: low nibble 15, type 0x2F14, at most 1096 bytes |
| PresentationRoute.BodyIsRead | src/binary_office.rs:728-739 | a directory atom is read exactly where one lies, at most eight mebibytes |
| PresentationRoute.HeaderExactlyWhereTheBytesLead | src/binary_office.rs:692-798 | from an offset of a stream, a header is found exactly when the bytes lead from there to it: atom, directory, last entry, container |
| DataSpaceMap.LpP4 | src/data_space_map.rs:102-116 | a text lies inside its extent and the walk moves past its length prefix |
| DataSpaceMap.LpP4ReadsBack | src/data_space_map.rs:102-116 | a written text is read back with its padding skipped |
| DataSpaceMap.EntryAt | src/data_space_map.rs:131-164 | an entry that gives a name is at least twelve bytes, and eight more for each component |
| DataSpaceMap.ComponentsReadBack | src/data_space_map.rs:146-159 | the components of a written entry are all skipped |
| DataSpaceMap.EntryReadsBack | src/data_space_map.rs:131-164 | a written entry gives its name and its end |
| DataSpaceMap.NamesAreFew | src/data_space_map.rs:120-166 | on any bytes and counts, at most (len - 8) / 12 names |
| DataSpaceMap.MapReadsBack | src/data_space_map.rs:120-166 | any written entries give their names in order, then whatever follows gives |
| DataSpaceMap.MalformedTailKeepsTheNames | src/data_space_map.rs:120-166 | names are kept when what follows is malformed or not counted |
| DataSpaceMap.PackageMapNamesItsDataSpace | src/dataspaces.rs:147-161 | read back, the map every written package carries names `StrongEncryptionDataSpace`, in 112 bytes |
| DataSpaceMap.PackageMapByFields | src/dataspaces.rs:147-161 | the map field by field, to its last two zeros |
| DataSpaceMap.AppendLpP4 | src/dataspaces.rs:112-121 | the buffer grows by the text and its padding |
| DataSpaceMap.BuildPackageMap | src/dataspaces.rs:147-161 | the two buffers come together as the map of the specification |
| DataSpaceMap.ReadDataSpaceNames | src/data_space_map.rs:120-166 | the walk computes its specification in a number of turns linear in the bytes |
| DataSpaceMap.WalkEntries | src/data_space_map.rs:130-165 | the loop over entries, and how many turns it takes |
| DataSpaceMap.ReadEntry | src/data_space_map.rs:131-164 | one entry's checks in their order |
| DataSpaceMap.SkipComponents | src/data_space_map.rs:146-159 | the loop over components ends within the entry whatever their declared count |
| SeekBuf.Buffered.Read | src/cfb_reader.rs:42-46 | the bytes at the logical position, from the buffer or past it; what is in the buffer is handed out without a call on the reader, and a refill is one |
| SeekBuf.Buffered.Seek | src/cfb_reader.rs:31-41 | an absolute or relative seek lands where an unbuffered one would, the overflow of the relative offset included; one that succeeds mends a buffer that is not the reader's, and one that fails keeps the buffer |
| SeekBuf.Buffered.SeekRelative | src/cfb_reader.rs:31-41 | a move inside the buffer keeps it and still lands where an unbuffered one would; one that stays in the buffer keeps it and calls nothing |
| SeekBuf.NewSeekBufReader | src/cfb_reader.rs:49-55 | starts where the caller's reader stands, in step |
| SeekBuf.SeekBufReader.Read | src/cfb_reader.rs:59-63 | in step, the bytes an unbuffered reader would hand out at that position, stopping short at most, and in step after; from the buffer while it lasts, without a call on the reader |
| SeekBuf.SeekBufReader.Seek | src/cfb_reader.rs:67-89 | in step, lands where an unbuffered seek would, and a refusal leaves the position; a failed seek that may have moved the reader: for a target that is no offset, in step exactly if the reader did not move, and otherwise, once asked, exactly if the buffer is still the reader's, as an empty one is; a seek from the end is in step again; one that lands inside the buffer keeps the buffer and makes no call on the reader, whether the target is absolute or relative |
| SeekBuf.Replay | src/cfb_reader.rs:42-90 | over any sequence of reads and seeks, on a reader that may read short and fail at any call: a bare reader's answer wherever it is in step, which only a failed seek ends; if no failing seek moves the reader, a bare run throughout, both ending at one place; and no more calls fail than fail underneath; a run that stays inside what was last read makes no call at all on the reader |

## Left out

- AES, SHA, HMAC, RC4 and base64 themselves: functions known only by their laws, so nothing is claimed about a wrong password or a tampered file being rejected.
- The array, key and verifier that XOR obfuscation derives from a password (`src/xor_obfuscation.rs:53-157`): an obfuscator is its sixteen bytes and two words, or none.
- Whether the provider name in a CryptoAPI header is well formed: the code does not read it either, and it is any bytes.
- XML tokenising, entities and namespaces: the parser starts from events whose element names and attribute keys are resolved and whose values are decoded, after the tokenizer's own check for a repeated attribute. `DocumentText` is a scanner of its own for the text the writer makes, not the program's tokenizer.
- The decoding of a password to UTF-16LE: a password is the bytes that are hashed.
- Seeks of the agile reader that fail, and writers that are flushed: reads, writes and container operations do fail, and so do the seeks under `SeekBufReader`.
- The other three fixed blobs of `src/dataspaces.rs`, the storages of a written document and timestamps: they carry no state the proofs need; `DataSpaceMap` is the one that is read back.
- Compound-file structure (sectors, allocation tables, directory trees): a container is a map from names to bytes, and for a binary document a set of names that are storages; a failed write may change the stream it writes and no other.
- `usize` is taken as 64 bits wide, so additions of 32-bit numbers from a file do not overflow; the `u32` counters, `u64` lengths and `i64` seek offsets are modelled at their widths.
- Both `blockSize` attributes are pinned to 16 by the screening and are not carried further.
- The lossy decoding of a data space name to text: a name is its code units.
- Standard (Office 2007) encryption, Word 97 and PowerPoint 97 rewriting, classification reports, messages, the command line: not part of this model.
- EncryptedSummary.DecryptStream: the conversions of 32-bit numbers to `usize`, which cannot fail at 64 bits, have no refusal of their own.
