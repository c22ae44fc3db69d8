# IdentiKey core protocols, verified in Dafny

IdentiKey is a family of Rust crates for self-sovereign identity: challenge/response login, a
post-quantum key-state chain, encrypted shares with signed access grants, and a signed op log. This
project models the parts where the crates' guarantees are decided and proves those guarantees for
every input, every run and every reachable state.

`dafny verify dfyconfig.toml` checks the whole project.

## What is modelled

| layer | modules | in the system's terms |
|---|---|---|
| canonical CBOR | `Basics`, `Cbor`, `CborProofs`, `CborMaps`, `CborCodec`, `Dcbor` | the printer and strict parser of section 4.2.1 of RFC 8949, as functions on byte strings and as the source's buffer and cursor objects; and the printer of the vendored dcbor crate, which also normalizes text |
| keys and payloads | `Keys`, `Challenge` | self-describing keys and signatures, challenges, responses, attestations, signing payloads |
| state chain | `StateRecord`, `StateRecordProofs`, `StateChain`, `StateRuns` | the record codec and the verifier step `observe`, over whole runs |
| SHA-256 | `Primes`, `Sha256`, `Sha256Bits`, `Sha256Vectors`, `StateDigests` | the local digest routine against FIPS 180-4, and the chain over it |
| login | `NonceStore`, `Verify` | the replay store and the end-to-end verifier |
| sharing | `Share`, `ShareRuns`, `ShareExact`, `LexSort`, `Grant`, `GrantSigning` | one payload key for many recipients, and grants that bind to a recipient set |
| wallet text | `Base58` | in-place base-58 printing |
| op log | `HybridClock`, `Envelopes`, `LogOps`, `LogReading`, `LogCore`, `LogAuthored`, `LogVisible`, `LogShown`, `LogExact`, `LogSigning`, `LogWire` | the hybrid logical clock, and ops signed over a digest tree so that parts can be elided |

Code that works in place (the CBOR buffer and cursor, the SHA-256 loops, the base-58 digits, the nonce
store, the push loops of shares, grants and envelopes) is modelled by classes, arrays and loops, each
proved equal to a function; the theorems are about those functions. Code made of expressions
(`observe` and its checks, the clock, `verify_grant`, the key maps) is modelled as functions.

Signatures, Blake3, key wrapping, the payload cipher and the re-encryption backend are function-valued
parameters; a theorem that needs them to be correct (what is sealed opens, what is signed verifies)
says so in a `requires`. Collision-freeness is always a hypothesis about the finitely many byte strings
that occur, so it can be met by a 32-byte hash; that nothing was forged is a hypothesis about the signatures
presented. Unicode normalization form C is a parameter, too: a projection that leaves ASCII alone.
Randomness (nonces, payload keys, seal coins) and clocks are inputs.

## Where the code does less than a reader might expect

Each item names the theorem with its exact condition, and most an input at which it shows.

- A decoded challenge need not be the only encoding of itself: unknown map fields are ignored
  (`Challenge.ChallengeStrictIff`, `Challenge.ChallengeNotUnique`). State records are strict.
- `grant.rs:3-6` says a rewrap needs a new grant. Rotating to the same recipients at the same epoch
  does not (`GrantSigning.RotationVoidsGrantUnless`, `GrantSigning.RewrapKeepsGrant`).
- The vendored dcbor printer puts text in normalization form C, and nobody normalizes the backend name of a
  capsule or the kind of an op beforehand. So a grant binds capsules, and a signature binds an op's kind,
  only up to that normalization (`GrantSigning.GrantBinding`, `GrantSigning.TwoBackendsOneGrant`,
  `LogExact.DigestsAgreeExactly`, `LogExact.TwoKindsOneDigest`), and an op whose kind is not in form C
  comes back from its bytes with another kind (`LogExact.WireRoundTripExactly`).
- `hlc.rs:31-36` promises strictly increasing readings. That holds exactly below the u64 ceiling
  (`HybridClock.Causality`, `HybridClock.SaturatedExample`).
- Repeated `deps` or `nacks` collapse in the envelope, so an op reads back as itself exactly when both
  lists are strictly increasing (`LogVisible.RoundTripExactly`).
- Nothing in the digest tree tells a leaf's bytes from a node's list of digests. Under a signed digest an
  envelope shows the signed op if and only if it is a node exactly when the op has assertions
  (`LogExact.VisibleExactly`); both ways it can fail to be are shown (`LogExact.LeafMisreads`,
  `LogExact.NodeMisreads`).
- Collection is invisible to a clock that never goes back, and otherwise exactly when none ran after a
  nonce's expiry since its last issue (`NonceStore.CollectionExactly`, `NonceStore.ClockGoingBack`).

## Model

| member | source | states |
|---|---|---|
| CborProofs.Strictness | crates/identikey-auth/src/cbor.rs:45-52 | any accepted input is, byte for byte, what the printer writes for the value returned, and that value is in canonical form |
| CborProofs.EncodeThenDecode | crates/identikey-auth/src/cbor.rs:38-52 | for every representable value: parsing its print gives the value with every map sorted, or a key-order error exactly when some map at some depth repeats a key |
| CborProofs.RoundTrip | crates/identikey-auth/src/cbor.rs:54-90 | the same with arbitrary bytes following, by induction over nested values |
| CborProofs.StrictValue | crates/identikey-auth/src/cbor.rs:236-289 | whatever the recursive parser takes off the front is the print of what it returns |
| CborProofs.PrefixFree | crates/identikey-auth/src/cbor.rs:54-90 | prints are prefix-free and injective up to the order of map entries |
| CborProofs.EncodeCanon | crates/identikey-auth/src/cbor.rs:71-88 | printing ignores the insertion order of distinct keys |
| CborProofs.AcceptedIsImage | crates/identikey-auth/src/cbor.rs:45-52 | the accepted inputs are exactly the prints of repeat-free values |
| CborProofs.KeyOrder | docs/standards/dcbor-determinism.md:48 | order of encoded keys is shorter first, then bytewise, across all head widths |
| CborProofs.HeadOrder | crates/identikey-auth/src/cbor.rs:158-175 | a smaller argument prints to a smaller head, whatever follows and whatever the widths |
| CborProofs.InfoOfArgument | crates/identikey-auth/src/cbor.rs:197-234 | the minimality check of each width admits exactly the arguments the printer gives that width |
| CborProofs.ReadHeadOfHead | crates/identikey-auth/src/cbor.rs:158-234 | a printed head reads back as its major type and argument |
| CborProofs.HeadOfReadHead | crates/identikey-auth/src/cbor.rs:197-234 | an accepted head is the printed form of what it yields |
| CborProofs.SortProps | crates/identikey-auth/src/cbor.rs:71-88 | the map sort orders keys, permutes entries and keeps duplicates visible |
| CborMaps.SameLookups | crates/identikey-auth/src/cbor.rs:113-131 | strictly ordered maps with the same lookups are the same map |
| CborMaps.CanonByLookups | crates/identikey-auth/src/cbor.rs:113-131 | a canonical map is the canonical form of any map with its lookups |
| CborMaps.LookupCanon | crates/identikey-auth/src/cbor.rs:113-131 | canonicalising a map does not change what it looks up |
| Dcbor.PrintExactly | vendor/dcbor/src/cbor.rs:321-350 | values print alike exactly when they agree once every text is normalized |
| Dcbor.PrintIsStable | vendor/dcbor/src/decode.rs:139-147 | what a print reads back as prints the same |
| Dcbor.NormalKeepsCanonical | vendor/dcbor/src/cbor.rs:321-350 | normalizing keeps every map in canonical order |
| CborCodec.Buffer.EncodeHead | crates/identikey-auth/src/cbor.rs:158-175 | appends exactly the head |
| CborCodec.Buffer.EncodeValue | crates/identikey-auth/src/cbor.rs:54-90 | appends exactly the value's print to the shared buffer |
| CborCodec.Buffer.EncodeArray | crates/identikey-auth/src/cbor.rs:65-70 | the item loop appends the array's print |
| CborCodec.Buffer.EncodeMap | crates/identikey-auth/src/cbor.rs:71-88 | encode keys, sort, append: the map's print |
| CborCodec.ToBytes | crates/identikey-auth/src/cbor.rs:38-42 | the buffer run returns the specified print |
| CborCodec.Cursor.Take | crates/identikey-auth/src/cbor.rs:183-194 | the next n bytes and the moved cursor, or truncation and no move |
| CborCodec.Cursor.ReadHead | crates/identikey-auth/src/cbor.rs:197-234 | the cursor's head reading is the specified one |
| CborCodec.Cursor.ReadValue | crates/identikey-auth/src/cbor.rs:236-289 | the cursor's value reading is the specified one, and leaves the cursor behind the value |
| CborCodec.Cursor.ReadItems | crates/identikey-auth/src/cbor.rs:250-256 | the array push loop reads what the recursive definition reads |
| CborCodec.Cursor.ReadEntries | crates/identikey-auth/src/cbor.rs:257-286 | the map push loop, with its running previous key, reads what the recursive definition reads |
| CborCodec.ParseBytes | crates/identikey-auth/src/cbor.rs:45-52 | the cursor run with its trailing-bytes check is the specified parser |
| Keys.TagRoundTrip | crates/identikey-auth/src/algorithm.rs:24-56 | tags name algorithms one to one |
| Keys.TagsExactly | crates/identikey-auth/src/algorithm.rs:24-56 | a text names an algorithm exactly when it is its tag |
| Keys.KeyRoundTrip | crates/identikey-auth/src/key.rs:37-97 | keys and signatures of both kinds survive their canonical map |
| Keys.KeysReadExactly | crates/identikey-auth/src/key.rs:37-97 | a value is read as a key or signature exactly when it is a map describing it |
| Keys.PreimagesCommit | crates/identikey-auth/src/key.rs:37-76 | fingerprint and XID preimages are equal exactly for equal algorithm and key, and never across kinds |
| StateRecordProofs.OpExact | crates/identikey-auth/src/state.rs:72-113 | an operational entry decodes exactly from its own canonical map |
| StateRecordProofs.ControlExact | crates/identikey-auth/src/state.rs:205-219 | the control key decodes exactly from its own canonical map |
| StateRecordProofs.RecordExactValue | crates/identikey-auth/src/state.rs:149-193 | a parsed value decodes to a record exactly when the record is valid and the value is its canonical form |
| StateRecordProofs.RecordBijection | crates/identikey-auth/src/state.rs:116-193 | bytes decode to a record if and only if the record is valid and the bytes are its print |
| StateRecordProofs.ReencodeCheckIsRedundant | crates/identikey-auth/src/state.rs:149-193 | the explicit re-encode check never rejects on its own |
| StateRuns.StepKeepsInvariant | crates/identikey-auth/src/state.rs:360-427 | one `observe`, accepted or not, keeps the trust described by a valid chain whose records all came in with signatures that authorise them |
| StateRuns.ChainInvariant | crates/identikey-auth/src/state.rs:360-497 | in every reachable trust the accepted heads form one hash-linked chain with consecutive numbers and one XID; for each of them some input of the run carried a signature by the predecessor's control key and, where the key changed, by the new one (for the first, the opening signatures); head, parent and anchor are the ones the chain dictates |
| StateRuns.AnchorIsPermanent | crates/identikey-auth/src/state.rs:374-427 | an anchor, once set, never changes |
| StateRuns.StartsFresh | crates/identikey-auth/src/state.rs:317-327 | both ways to start a trust start a run |
| StateRuns.FirstExactly | crates/identikey-auth/src/state.rs:392-427 | a fresh verifier accepts a record exactly when it decodes, has number 1, is the anchored one if there is an anchor, and its signatures open the chain (by its own control key, and by the elect classical key for a migration); then it holds exactly that head and the old or new anchor |
| StateRuns.LaterExactly | crates/identikey-auth/src/state.rs:374-462 | an established verifier ignores a record it knows, takes an authorised successor as head, forks on an authorised rival, and refuses everything else |
| StateRuns.UnsignedSuccessor | crates/identikey-auth/src/state.rs:464-481 | a successor without the signatures is refused for them |
| StateRuns.RotationExactly | crates/identikey-auth/src/state.rs:464-501 | the rotation check passes exactly with the same XID, a signature by the previous control key, and one by the new key where it changes |
| StateRuns.ResolveExactly | crates/identikey-auth/src/state.rs:338-350 | only the unforked head resolves, and only under its own digest |
| StateRuns.RunsOnlyExtend | crates/identikey-auth/src/state.rs:360-427 | continuing a run keeps anchor and fork and only extends the history |
| StateRuns.HeadDigestIsRecordDigest | crates/identikey-auth/src/state.rs:370-372 | digest and signing payload taken of raw input are those of the decoded record |
| StateRuns.ForkHasEvidence | crates/identikey-auth/src/state.rs:452-481 | behind every fork stand two inputs of the run: two successors of one record with different digests, each carrying signatures by that record's control key |
| StateRuns.ForkIsFinal | crates/identikey-auth/src/state.rs:338-369 | after a fork no inputs restore `authority` or `resolve` |
| StateRuns.DuplicityForks | crates/identikey-auth/src/state.rs:429-462 | two records that each follow the head, with signatures that authorise them, fork the trust in either order |
| StateRuns.ForkExactly | crates/identikey-auth/src/state.rs:429-462 | which inputs fork a reachable trust: exactly the siblings of the current head that their signatures authorise |
| StateRuns.Accountability | crates/identikey-auth/src/state.rs:360-481 | two verifiers with one first record and diverging histories hold two different records with the same prev, number and XID, and each received, among its own inputs, signatures on its record by the common predecessor's control key |
| StateRuns.EqualHeadsEqualHistories | crates/identikey-auth/src/state.rs:360-462 | without digest collisions equal head digests mean equal histories |
| StateRuns.NeverForksOnOneChain | crates/identikey-auth/src/state.rs:374-462 | any duplication, reordering or replay of one chain never forks and never steps back |
| StateRuns.Convergence | crates/identikey-auth/src/state.rs:374-462 | once a chain has come in order, each record with signatures that open or authorise it and whatever came between, its last record is the authority |
| Sha256.PadMessage | crates/identikey-auth/src/state.rs:524-529 | the padding loop ends and yields the padded message of section 5.1.1 of FIPS 180-4 |
| Sha256.FillSchedule | crates/identikey-auth/src/state.rs:532-543 | the in-place schedule, with the source's own rotations and shifts, is the message schedule of section 6.2.2 |
| Sha256.RunRounds | crates/identikey-auth/src/state.rs:544-564 | eight rolling variables, with the source's own rotations, after 64 rounds are the specified ones |
| Sha256.Compress | crates/identikey-auth/src/state.rs:531-568 | one block updates the hash words in place as specified |
| Sha256.Sha256 | crates/identikey-auth/src/state.rs:519-575 | the routine computes SHA-256 on every input |
| Sha256Bits.SigmaBits | crates/identikey-auth/src/state.rs:537-553 | each bit of each of the four sigmas is the parity of the three bits section 4.1.2 of FIPS 180-4 names |
| Sha256Bits.ChSelects | crates/identikey-auth/src/state.rs:547 | bit by bit the first word selects between the other two |
| Sha256Bits.MajIsMajority | crates/identikey-auth/src/state.rs:554 | bit by bit the majority of three words |
| Sha256Bits.RotrBit | crates/identikey-auth/src/state.rs:537-553 | a rotation moves every bit round by its count |
| Sha256Vectors.DigestOfAbc | crates/identikey-auth/src/state.rs:591-594 | the specified digest of "abc" is the published one, through every word of schedule and rounds |
| Sha256.PadLength | crates/identikey-auth/src/state.rs:524-529 | a padded message is a whole number of 64-byte blocks |
| Sha256.PadInjective | crates/identikey-auth/src/state.rs:524-529 | padding is injective below 2^61 bytes |
| Sha256.ConstantsAreRoots | crates/identikey-auth/src/state.rs:508-523 | the constants are the root fractions of sections 4.2.2 and 5.3.3 |
| Primes.TableIsThePrimes | crates/identikey-auth/src/state.rs:508-517 | the primes those constants are taken from are the first sixty-four, none skipped |
| StateDigests.ChainOfSha256 | crates/identikey-auth/src/state.rs:360-575 | over the local routine every accepted record names the SHA-256 of the bytes before it, and head and anchor digests are SHA-256 digests |
| Challenge.ChallengeRoundTrip | crates/identikey-auth/src/challenge.rs:28-56 | every challenge survives the wire |
| Challenge.ChallengeStrictIff | crates/identikey-auth/src/challenge.rs:45-56 | an accepted challenge re-encodes to its input exactly when the map has five entries |
| Challenge.ChallengeNotUnique | crates/identikey-auth/src/challenge.rs:45-56 | every challenge has a second accepted encoding |
| Challenge.SignedRoundTrip | crates/identikey-auth/src/challenge.rs:80-116 | responses and attestations, with or without a post-quantum pair, survive the wire |
| Challenge.SignedReadsExactly | crates/identikey-auth/src/challenge.rs:94-116 | a map is read as a response or attestation exactly when it holds the body, a described key and signature, and both or neither of the post-quantum pair |
| Challenge.PqPairExactly | crates/identikey-auth/src/challenge.rs:94-116 | half a post-quantum pair is refused as dangling |
| Challenge.DomainSeparation | crates/identikey-auth/src/challenge.rs:60-67 | login, attestation and state payloads never coincide and each determines what it carries |
| NonceStore.InMemoryNonceStore.RecordIssued | crates/identikey-auth/src/nonce.rs:36-38 | inserts or overwrites the entry as unused |
| NonceStore.InMemoryNonceStore.Consume | crates/identikey-auth/src/nonce.rs:40-54 | marks a live unused entry used, or fails and changes nothing |
| NonceStore.InMemoryNonceStore.Gc | crates/identikey-auth/src/nonce.rs:56-58 | keeps exactly the unexpired entries |
| NonceStore.ReplaySafety | crates/identikey-auth/src/nonce.rs:35-59 | over any run with any clock a nonce is accepted at most as often as it was issued |
| NonceStore.CollectionNeverWidens | crates/identikey-auth/src/nonce.rs:56-58 | collection never makes the store accept more |
| NonceStore.CollectionIsInvisible | crates/identikey-auth/src/nonce.rs:35-59 | under a clock that never goes back the collecting store answers like one that never collects |
| NonceStore.CollectionExactly | crates/identikey-auth/src/nonce.rs:35-59 | whatever the clocks, the collecting store accepts a use exactly when a plain one does and no collection since the nonce's last issue ran after its expiry |
| NonceStore.ClockGoingBack | crates/identikey-auth/src/nonce.rs:56-58 | a run on which a clock going back makes the two differ |
| NonceStore.SpentStaysSpent | crates/identikey-auth/src/nonce.rs:40-54 | a spent nonce stays spent until issued again |
| NonceStore.EntrySurvives | crates/identikey-auth/src/nonce.rs:35-59 | other traffic, rejected attempts on the nonce itself and timely collection leave a live entry alone |
| Verify.RunVerification | crates/identikey-auth/src/verify.rs:33-84 | the guards and the final burn give the specified verdict and store; every failure leaves the store as it was |
| Verify.VerdictExactly | crates/identikey-auth/src/verify.rs:33-84 | acceptance if and only if version, audience, window, nonce, signatures and policy all hold; the burned nonce and named keys are the response's |
| Verify.Issue | crates/identikey-auth/src/nonce.rs:76-88 | the issuer returns a version 1 challenge valid for the ttl and records its nonce with the same expiry |
| Verify.LoginSucceeds | crates/identikey-auth/src/nonce.rs:76-88 | an issued challenge answered by a correct signer and sent over the wire is accepted at every time of its window, earlier failed attempts on its nonce notwithstanding |
| Verify.AcceptedOnce | crates/identikey-auth/src/verify.rs:33-84 | after acceptance no response with that nonce is accepted, at any time, skew or policy, until it is issued again |
| Verify.AttestationRoundTrip | crates/identikey-auth/src/attestation.rs:88-118 | a correct signer's attestation survives the wire and verifies as its fingerprint |
| Verify.AttestationVerdictExactly | crates/identikey-auth/src/attestation.rs:106-118 | an attestation is accepted exactly when its classical signature verifies, a present post-quantum one too, and one is present where required; the answer is the key's fingerprint |
| Share.RejectDuplicateDirectLoop | crates/identikey-share/src/share.rs:463-475 | the duplicate loop computes the specified verdict |
| Share.SealAllLoop | crates/identikey-share/src/share.rs:44-88 | the sealing loop yields one wrap per recipient, or the first error |
| Share.EncapsulateAllLoop | crates/identikey-share/src/share.rs:44-88 | the capsule loop yields one capsule per re-encryption recipient, or the first error |
| Share.SealShare | crates/identikey-share/src/share.rs:44-88 | sealing as a sequence of checked steps |
| ShareRuns.DirectCheckExactly | crates/identikey-share/src/share.rs:463-475 | passes exactly when all keys encapsulate to different keys |
| ShareRuns.RecryptCheckExactly | crates/identikey-share/src/share.rs:477-488 | passes exactly when no re-encryption recipient repeats |
| ShareRuns.SealHolds | crates/identikey-share/src/share.rs:44-88 | a sealed share holds its payload key and plaintext for all its recipients |
| ShareRuns.AddHolds | crates/identikey-share/src/share.rs:125-151 | adding a recipient keeps that |
| ShareRuns.RotateHolds | crates/identikey-share/src/share.rs:153-187 | rotating keeps that at the new epoch |
| ShareRuns.TransformHolds | crates/identikey-share/src/share.rs:189-223 | transforming a capsule keeps that for the new recipient |
| ShareRuns.OpenExactly | crates/identikey-share/src/share.rs:90-103 | a current target reads the plaintext, any other secret gets NoMatchingWrap |
| ShareRuns.OpenRecryptExactly | crates/identikey-share/src/share.rs:106-123 | the owner of a current capsule reads the plaintext; without a capsule NoMatchingWrap |
| ShareRuns.RunHolds | crates/identikey-share/src/share.rs:125-223 | every run of add, rotate and transform keeps the share invariant and the payload bytes |
| ShareRuns.ShareLaw | crates/identikey-share/src/share.rs:44-223 | seal, then any run: exactly the listed recipients read the original plaintext; wraps and targets stay aligned, distinct and at the share's epoch |
| ShareExact.SealSucceedsExactly | crates/identikey-share/src/share.rs:44-88 | sealing succeeds exactly when someone is named, no one twice, and every primitive succeeds |
| ShareExact.SealedExactly | crates/identikey-share/src/share.rs:44-88 | the sealed share has the given epoch and nonce, the payload under the given key, a wrap per recipient in order and access for exactly the requested ones |
| ShareExact.AddExactly | crates/identikey-share/src/share.rs:125-151 | adding succeeds exactly for a new recipient by an opener, and adds that one wrap and target |
| ShareExact.RotateExactly | crates/identikey-share/src/share.rs:153-187 | rotating succeeds exactly without capsules, for distinct recipients by an opener, and leaves exactly the new list at the new epoch |
| ShareExact.TransformExactly | crates/identikey-share/src/share.rs:189-223 | a transform replaces one capsule of the old recipient by one of the new with the transformed ciphertext, and nothing else |
| ShareExact.TransformSucceedsExactly | crates/identikey-share/src/share.rs:189-223 | it succeeds exactly within one backend, from a listed to an unlisted recipient, when the backend yields a ciphertext |
| ShareExact.TransformMoves | crates/identikey-share/src/share.rs:189-223 | afterwards the new recipient reads the plaintext and the old one finds no capsule |
| ShareExact.RunGrants | crates/identikey-share/src/share.rs:125-223 | after any run the access set is exactly what the successful operations asked for |
| ShareExact.AccessLaw | crates/identikey-share/src/share.rs:44-223 | whoever the requests and the successful operations leave with access reads the original plaintext, anyone else is told there is no matching wrap |
| LexSort.SortedUnique | crates/identikey-share/src/share.rs:250 | a multiset of byte strings has one sorted list |
| Grant.BuildAccessMaterial | crates/identikey-share/src/share.rs:242-259 | push, sort, frame: the specified commitment preimage, backend names normalized by the printer |
| Grant.PartsAgreeExactly | crates/identikey-share/src/share.rs:490-504 | encoded parts agree exactly for equal targets, or equal capsules up to the normalization of the backend name; targets and capsules are never confused |
| Grant.PartsParse | crates/identikey-share/src/share.rs:510-560 | a part's bytes parse back to the target, or to the capsule with its backend normalized |
| Grant.MaterialExactly | crates/identikey-share/src/share.rs:242-259 | framed preimages are equal exactly for equal multisets of parts |
| Grant.AccessMaterialExactly | crates/identikey-share/src/share.rs:242-259 | the preimage ignores recipient order and determines, as multisets, the targets and, up to backend normalization, the capsules |
| Grant.ContentMaterialInjective | crates/identikey-share/src/share.rs:231-239 | the content preimage determines payload nonce and ciphertext |
| GrantSigning.MessageExactly | crates/identikey-share/src/grant.rs:246-267 | the signed message determines the whole statement and nothing else |
| GrantSigning.MessageIsPrinted | crates/identikey-share/src/grant.rs:246-267 | normalization does not touch the signed message |
| GrantSigning.GrantDomainSeparation | crates/identikey-share/src/grant.rs:261-267 | a grant message is never a login, attestation or state payload |
| GrantSigning.GrantVerifies | crates/identikey-share/src/grant.rs:271-361 | a fresh grant verifies on its share, both signatures over one message; it fails a required post-quantum policy exactly when the signer has no such key |
| GrantSigning.GrantAccessExactly | crates/identikey-share/src/grant.rs:271-326 | granting fails exactly on a mode the share does not have or with the post-quantum signer; what it makes commits to the share under the signer's keys |
| GrantSigning.GrantVerdictExactly | crates/identikey-share/src/grant.rs:329-361 | for every grant, share and policy: accepted exactly when content, commitment, epoch and mode agree, the Ed25519 signature verifies, and the post-quantum part verifies or is wholly absent where allowed; each refusal names the first that fails |
| GrantSigning.VerifiedWasGranted | crates/identikey-share/src/grant.rs:329-361 | if the passing signature was not forged, a grant that verifies was made by its signer for that content id, epoch and access set, in that mode |
| GrantSigning.MaterialsDiffer | crates/identikey-share/src/grant.rs:261-267 | content preimages, access preimages and grant messages never coincide |
| GrantSigning.ModesExactly | crates/identikey-share/src/grant.rs:28-46 | a text names a mode exactly when it is its tag |
| GrantSigning.GrantBinding | crates/identikey-share/src/grant.rs:329-361 | a grant valid on one share is valid on another exactly when content id, epoch and the multisets of targets and of capsules agree, capsules up to backend normalization |
| GrantSigning.SameAccessExactly | crates/identikey-share/src/share.rs:242-259 | for backend names in form C, agreement up to normalization is equality of the multisets |
| GrantSigning.TwoBackendsOneGrant | crates/identikey-share/src/share.rs:497-504 | two shares with different capsules on which every grant has the same verdict |
| GrantSigning.AddVoidsGrant | crates/identikey-share/src/grant.rs:329-361 | adding a recipient always voids the grant |
| GrantSigning.RotationVoidsGrantUnless | crates/identikey-share/src/grant.rs:3-6 | a rotation voids the grant unless epoch and recipients are the old ones |
| GrantSigning.RewrapKeepsGrant | crates/identikey-share/src/share.rs:153-187 | any current target can rewrap to the same recipients at the same epoch, and every grant keeps its verdict |
| GrantSigning.ContentIdIsStable | crates/identikey-share/src/share.rs:231-239 | no run of operations changes the content id |
| GrantSigning.GrantOverRuns | crates/identikey-share/src/grant.rs:329-361 | over any run the grant stays valid exactly when epoch, targets and, up to backend normalization, capsules end up the same |
| Base58.MulAddInPlace | crates/identikey-wallet/src/basic.rs:83-104 | one pass over the digits in place, carry never above 255 |
| Base58.PushByteInPlace | crates/identikey-wallet/src/basic.rs:83-104 | the digits of 256 times the number plus the byte |
| Base58.Bs58Encode | crates/identikey-wallet/src/basic.rs:83-104 | the encoder prints one `1` per leading zero byte, then the digits of the value |
| Base58.DigitsOfProps | crates/identikey-wallet/src/basic.rs:83-104 | digits below 58, exact big-endian value, nonzero top digit |
| Base58.DigitCount | crates/identikey-wallet/src/basic.rs:83-104 | the digits always fit the preallocated capacity |
| Base58.DecodeEncode | crates/identikey-wallet/src/basic.rs:83-104 | a reference decoder inverts the encoder on every input |
| Base58.EncodeInjective | crates/identikey-wallet/src/basic.rs:83-104 | different inputs never print alike |
| HybridClock.Causality | crates/identikey-log/src/hlc.rs:41-52 | in any multi-node run an earlier event has the strictly smaller reading if and only if its own has not saturated |
| HybridClock.ClockBound | crates/identikey-log/src/hlc.rs:41-52 | no clock exceeds the largest wall reading plus the number of advances |
| HybridClock.CausalityBelowCeiling | crates/identikey-log/src/hlc.rs:41-52 | below that bound happens-before is clock order |
| HybridClock.ClockExactly | crates/identikey-log/src/hlc.rs:41-52 | a node's clock is exactly the largest reading it has issued or received, with counter 0 |
| HybridClock.IssuedExactly | crates/identikey-log/src/hlc.rs:41-46 | an issued reading is one above the larger of the wall and everything the node has issued or received, or the ceiling |
| HybridClock.SaturatedExample | crates/identikey-log/src/hlc.rs:41-43 | at the ceiling two events of one node share a reading |
| Envelopes.ElisionKeepsDigest | crates/identikey-log/src/sign.rs:11-13 | eliding any elements at any depth keeps every digest above them |
| Envelopes.AddKeepsOrder | crates/identikey-log/src/codec.rs:122-136 | adding an assertion keeps strict digest order and adds the element unless its digest was there |
| Envelopes.OrderedUnique | crates/identikey-log/src/codec.rs:68-70 | a set of assertions has one digest order |
| Envelopes.ItemsAgreeExactly | crates/identikey-log/src/codec.rs:122-136 | leaves have the same bytes exactly when they agree up to normalization |
| LogOps.BuildEnvelope | crates/identikey-log/src/codec.rs:99-137 | the building loops yield the specified envelope or error |
| LogOps.BuildSignedEnvelope | crates/identikey-log/src/codec.rs:145-155 | wrap and attach: the specified signed envelope |
| LogOps.ParseEnvelope | crates/identikey-log/src/codec.rs:241-367 | the reading loops, with their counters and in-place sorts, yield the specified result |
| LogOps.ParseSignatures | crates/identikey-log/src/codec.rs:334-364 | the signature loop yields the specified list and count |
| LogReading.ReadByClaims | crates/identikey-log/src/codec.rs:300-332 | the reading loop fails with the first malformed assertion's error and otherwise collects all claims |
| LogReading.ClaimReadsExactly | crates/identikey-log/src/codec.rs:302-326 | an assertion reads as a claim exactly when it is that claim's label and value |
| LogReading.SignatureReadsExactly | crates/identikey-log/src/codec.rs:335-363 | a wrapper's assertion yields a signature exactly when it is labelled as one and holds one |
| LogReading.RedactedInner | crates/identikey-log/src/codec.rs:233-240 | with assertions replaced by digests the reader loses exactly those claims, counts them, and nothing else changes |
| LogCore.CoreReads | crates/identikey-log/src/codec.rs:259-298 | an op's core map reads back as its core |
| LogShown.CoreReadsExactly | crates/identikey-log/src/codec.rs:257-298 | a core map is accepted as an op exactly when version and type are the profile's, the kind is not empty, the body canonical, every hash 32 bytes, and the fields are the op's |
| LogCore.CoreSorted | crates/identikey-log/src/codec.rs:41-55 | the insertion order of the core map is its canonical order |
| LogCore.VisibleClaim | crates/identikey-log/src/sign.rs:14-17 | an element that shows a claim under the digest of a written claim shows that very claim |
| LogAuthored.Authored | crates/identikey-log/src/codec.rs:99-137 | an authored envelope lists each claim of the op exactly once, in digest order |
| LogAuthored.AuthoredElision | crates/identikey-log/src/codec.rs:233-367 | whichever claims are elided, the reader gets the op without them and their number, under the same digest |
| LogVisible.RoundTripExactly | crates/identikey-log/src/codec.rs:328-332 | reading back returns the op's lists as increasing sets, so the very op exactly when they were strictly increasing |
| LogVisible.OrderDoesNotMatter | crates/identikey-log/src/codec.rs:122-136 | the envelope depends on the lists only as sets |
| LogVisible.ReencodeStable | crates/identikey-log/src/codec.rs:323-325 | encoding what was read gives the same envelope |
| LogShown.SameSkeleton | crates/identikey-log/src/sign.rs:14-17 | one digest and one shape fix the core map, up to normalization, and every assertion's digest |
| LogShown.CoreShown | crates/identikey-log/src/codec.rs:259-298 | core maps that agree up to normalization read alike but for the normalization of the kind |
| LogExact.VisibleIsElision | crates/identikey-log/src/sign.rs:11-17 | whatever reads as an op under an authored digest, with its shape, shows an elision of the authored op: every other field as authored, the kind up to normalization, every missing claim counted |
| LogExact.VisibleExactly | crates/identikey-log/src/sign.rs:11-17 | it shows an elision if and only if it is a node exactly when the op has assertions |
| LogExact.LeafReadsAsNodeExactly | crates/identikey-log/src/sign.rs:14-17 | a leaf's bytes are a node's digests exactly when they start with its core's digest and are a whole number of digests, more than one |
| LogExact.LeafMisreads | crates/identikey-log/src/sign.rs:14-17 | an op without assertions whose bytes are such a list has its digest taken for another op |
| LogExact.NodeMisreads | crates/identikey-log/src/sign.rs:14-17 | an op with assertions whose digests are another op's bytes has its digest taken for that op |
| LogExact.DigestsAgreeExactly | crates/identikey-log/src/sign.rs:91-98 | ops of one shape share a signed digest exactly when they make the same claims and agree but for the normalization of the kind |
| LogExact.KindsShareDigest | crates/identikey-log/src/codec.rs:99-137 | ops that differ only in the normalization of the kind share a digest, whatever the hash |
| LogExact.TwoKindsOneDigest | crates/identikey-log/src/codec.rs:113 | two different ops with one digest to sign |
| LogExact.WireKeepsDigest | vendor/dcbor/src/decode.rs:139-147 | passing through bytes changes no digest |
| LogExact.WireRoundTripExactly | crates/identikey-log/src/codec.rs:182-231 | over the wire an op comes back as itself exactly when its lists were strictly increasing and its kind in form C |
| LogSigning.VerifySignatures | crates/identikey-log/src/sign.rs:167-202 | the loop with early exit accepts exactly when every signature counts |
| LogSigning.VerifyAllExactly | crates/identikey-log/src/sign.rs:101-128 | accepts exactly when every signature counts: an ML-DSA one at level 87 under the key supplied, any other under the actor's key; otherwise refuses for the first that does not, a missing key included |
| LogSigning.VerifyOneExactly | crates/identikey-log/src/sign.rs:174-200 | one signature passes exactly when its primitive accepts it, and each way to fail has its own error |
| LogSigning.VerdictsExactly | crates/identikey-log/src/sign.rs:119-159 | both verifiers accept exactly when something is signed and all of it counts over the wrapper's digest |
| LogSigning.ElisionKeepsVerdict | crates/identikey-log/src/sign.rs:130-159 | eliding inner assertions of a readable signed op keeps digest, signatures and verdict; the elided fields are dropped and counted |
| LogSigning.ElideIsRedaction | crates/identikey-log/src/sign.rs:11-13 | set-based elision that targets inner assertions only is such a redaction |
| LogSigning.VerifiedShowsSigned | crates/identikey-log/src/sign.rs:146-159 | for any actor and post-quantum key: if no signature that passes was forged, an envelope that verifies was made from a signed op, and shows an elision of it exactly when it has that op's shape |
| LogSigning.SignThenVerify | crates/identikey-log/src/sign.rs:76-98 | where keys tell authors apart, a signed op verifies exactly when its signer is its actor |
| LogSigning.CounterSignExactly | crates/identikey-log/src/sign.rs:85-128 | counter-signing keeps op, digest and signatures; the result has the old error, or verifies exactly when the new signer is the actor |
| LogSigning.SecondAuthorFails | crates/identikey-log/src/sign.rs:101-106 | an op that verifies and, counter-signed by another author, no longer does |
| LogWire.SignedRoundTrip | crates/identikey-log/src/codec.rs:145-155 | a signed op reads back with its lists as increasing sets, all its signatures once, nothing elided |
| LogWire.VerifiersAgree | crates/identikey-log/src/sign.rs:119-159 | verifying the op and verifying its envelope accept the same signed ops |
| LogWire.OwnEnvelopeIsUnforged | crates/identikey-log/src/sign.rs:76-79 | an author's own envelope verifies and meets the hypothesis on forgery, with a key that signs any message |
| LogWire.SignatureElision | crates/identikey-log/src/sign.rs:139-159 | eliding signatures of a verified envelope leaves it verified while one remains, else unsigned |

## Left out

- Real cryptography: Ed25519, P-256, ML-DSA, X25519, XChaCha20-Poly1305, Argon2id and Blake3 are parameters; `wrap.rs` enters only as a seal/open contract.
- `crates/identikey-auth/src/enclave`: foreign calls to platform key stores.
- Wallet storage, credential providers, keychain, password prompts and the command line: environment plumbing.
- Wallet and sealed-secret envelope codecs and the `IKEYW` header: mostly library calls and fixed offsets.
- `identikey-capability`: its content is Datalog evaluation in a library.
- `identikey-admit`: JSON shape checks, each settled by one branch.
- `identikey-log/src/wasm.rs`, the `pqcrypto` feature split (the model is the build with the feature) and salting.
- `to_cbor`/`from_cbor` of whole shares, wraps and grants (single targets and capsules are modelled): would add another record codec of the same kind.
- The byte form of envelopes beyond the normalization of leaves, and Blake3 `content_hash`: an envelope is modelled as its element tree, leaves carry at most one tag and hold unsigned integers, byte strings, text, arrays and text-keyed maps, and encrypted or compressed elements are treated like elided ones.
- Unicode normalization form C itself: a parameter, of which idempotence, leaving ASCII alone and losing no text altogether are used.
- Error message texts: only the variants are modelled; `cbor.rs` truncation and length-overflow errors share one variant, and the name of a missing field is kept only in the log.
- Stack depth of the recursive parser and preallocation sizes other than base-58's.
- The standard library's sorts appear as stable insertion sorts.
- Zeroization of secrets.
- u64 additions of time and skew wrap, as in a release build; `Verify.LoginSucceeds` is stated for sums that do not wrap.
- OIDC, party and keyspace standards documents: no code in the repository decides them.
