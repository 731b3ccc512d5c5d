# Verified model of the IronServer vLLM Instance

The Instance serves one attested language model to a closed cohort. Its own logic, as opposed to the
libraries it calls, is a RAM session store driven by four HTTP handlers, a few hand-written codecs, two
PEM scanners, a certificate path test and a GPU report pipeline that crosses a process boundary. This
project models that logic in Dafny and proves what it is meant to guarantee, for every input, every
history and every interleaving.

`dafny verify dfyconfig.toml` checks the whole project.

## How the model is laid out

| file | subject |
|---|---|
| `Bits.dfy` | bytes and sextets as bit strings; packing and its inverses |
| `Numbers.dfy` | binary digits and bytes of a number, most significant first |
| `Hex.dfy`, `Base64.dfy`, `Sha1.dfy`, `Uuid.dfy` | the codecs, SHA-1 and UUIDv5 of `src/lib.rs` and `src/attestation.rs` |
| `Manifest.dfy` | cohort membership by hex text |
| `Store.dfy` | `MemberStore` as a class; its atomic steps as functions on `Inner` |
| `History.dfy` | every run of the store, compared with a scan of its history |
| `Identity.dfy` | what enrols and revokes do to identities; how large the store grows |
| `RateLimit.dfy` | the attestation bucket as a law about time windows |
| `Enrol.dfy`, `Manage.dfy` | the `/enroll` and `/manage` handlers; interleaved management requests |
| `Chat.dfy`, `ChatTask.dfy` | the chat relay as a state machine, and the relay loop that refines it |
| `Collect.dfy` | decoding a list of texts, all or nothing |
| `ChainCheck.dfy` | the x5c chain walk against section 6.1 of RFC 5280 |
| `Pem.dfy`, `PemRoundTrip.dfy` | the Rust and Python PEM scanners; wrapping and recovering certificates |
| `Attestation.dfy` | nonce derivation, the helper script and the `/attestation` handler |

Four conventions run through it.

* Each store method holds the lock throughout, so it is one atomic step. A *history* is the list of steps
  in the order of their critical sections; `Run(h)` is the state it leads to. The in-place methods are
  proved equal to the step functions, and the theorems about histories are about those functions.
* Tokens are drawn at random. `Fresh(h)` says that no two enrols of a history drew the same token. Clauses
  that hold without it are stated without it: index soundness, that a live bearer is a recent one, and that
  a revoke clears a hash held once need no freshness, while their converses do.
  `Enrol.FreshDrawsFreshTokens` derives `Fresh` from draws of 32 random bytes that never repeat.
* Results that matter are stated down to the calls, literals and bytes themselves, not only through the
  functions the model is built from: what is decoded, verified, hashed and compared, in which order, and the
  numbers 3, 5, 0.1, 8, 16 and 17 appear in the contracts.
* Clock readings are real numbers supplied per call, in the order of the critical sections. Backward
  readings are allowed unless a theorem says otherwise; they count as zero elapsed time.

## Where the code and its prose differ

The model follows the code.

* `README.md:81-83` and `src/enroll.rs:9` describe a device cap per transaction. The code caps bearers per
  pubkey and evicts the oldest (`src/state.rs:112-142`), so the 429 branch of `/enroll` is never taken.
* The comment on `b64_decode_any` says white space is ignored. Only `=`, line feed and carriage return are
  (`src/lib.rs:119`); any other white space makes decoding fail (`Base64.DecodeSucceedsIff`,
  `Base64.OtherSpaceFails`).
* `revoke_by_member_hash` is documented to drop every bearer of an identity. It removes the first member
  found with the hash, in map order. `Identity.RevokeClearsIff` gives the exact condition under which no
  bearer of the hash survives, `Identity.RevokeClears` shows that a manifest without repeated hashes meets
  it, and `Identity.SharedHashSurvives` shows a manifest that does not.
* Certificate key usage that cannot be parsed is treated as absent (`src/enroll.rs:172-176`).
  `ChainCheck.AcceptedChainIff` says exactly which accepted chains the standard would refuse for it.
* The two PEM scanners part when an END marker shares the closing dashes of a BEGIN marker
  (`Pem.SharedDashes`); `Pem.ScannersAgreeIff` gives the exact condition, and a line break after every
  BEGIN marker is enough for it (`Pem.ScannersAgree`).

## Model

| member | source | states |
|---|---|---|
| `Store.MemberStore.constructor` | src/state.rs:57-70 | a new store has no members, bearers, nonces or buckets |
| `Store.MemberStore.SessionCount` | src/state.rs:84-86 | the length of the pubkey's queue, zero for a stranger |
| `Store.MemberStore.ContainsToken` | src/state.rs:169-171 | a bearer passes exactly when the index holds it |
| `Store.MemberStore.GetByToken` | src/state.rs:157-167 | the identity behind a bearer, or nothing when index or member is missing |
| `Store.MemberStore.Insert` | src/state.rs:120-151 | the popping loop keeps the three newest bearers in order, drops exactly the overflow from the index and always succeeds |
| `Store.MemberStore.DropTokens` | src/state.rs:146-148 | exactly the listed bearers leave the index |
| `Store.MemberStore.RevokeByMemberHash` | src/state.rs:179-193 | some member with the hash, if there is one, is removed with all its bearers; otherwise nothing changes |
| `Store.MemberStore.NoteNonce` | src/state.rs:196-198 | reports whether the nonce was new and records it |
| `Store.MemberStore.AllowAttestation` | src/state.rs:90-102 | decision and new bucket are those of the refill-then-charge step; no other bucket changes |
| `History.QueueIsHistory` | src/state.rs:120-193 | in every reachable state a pubkey's queue is the three newest bearers minted since its last revocation, in order; membership is having one |
| `History.NewestIsAmong` | src/state.rs:112-142 | being among the newest n of the scan is being one of the last n enrols of the pubkey with no revocation after it |
| `History.IndexAlwaysSound` | src/state.rs:120-193 | even with repeated tokens each index entry points at a member whose queue holds the bearer, queues hold one to three bearers, and the two lookups agree |
| `History.FreshIndexComplete` | src/state.rs:120-193 | with fresh tokens every queued bearer is indexed under its own pubkey, so queues are disjoint |
| `History.LiveIffRecent` | src/state.rs:120-193 | a live bearer is always among the three most recent enrols of its pubkey since its last revocation; with fresh tokens those are exactly the live ones |
| `History.DeadStaysDead` | src/state.rs:120-193 | a bearer that was drawn and is dead is dead after every continuation |
| `History.RepeatedTokenBreaksIndex` | src/state.rs:179-193 | without freshness the index can lose a bearer that a queue still holds |
| `Identity.MembersPaired` | src/enroll.rs:93-113 | every member's stored hash is paired with its pubkey in the manifest |
| `Identity.ResolvesToPair` | src/state.rs:157-167 | each live bearer resolves to a pair the manifest lists |
| `Identity.RevokeOutcome` | src/state.rs:179-193 | a revoke extends a history validly, leads to the state of the revoke step and keeps freshness |
| `Identity.RevokeExact` | src/state.rs:179-193 | a revoke kills every bearer of the member it finds and gives none a new meaning; with fresh tokens it touches no other bearer |
| `Identity.RevokeClearsIff` | src/state.rs:173-193 | right after a revoke no live bearer resolves to the hash if at most one member held it, whatever the tokens; with fresh tokens only then |
| `Identity.RevokeClears` | src/state.rs:173-193 | with a manifest that lists each hash under at most one pubkey a revoke always clears its hash, repeated tokens or not |
| `Identity.SharedHashSurvives` | src/state.rs:181-181 | a hash enrolled under two pubkeys keeps a live bearer after one revoke |
| `Identity.EnrolExact` | src/state.rs:120-151 | an enrol makes its own bearer live and revives no other; with fresh tokens it disturbs no bearer of another pubkey and evicts the oldest of its own exactly when the queue was full |
| `Identity.IndexBounded` | src/state.rs:57-63 | the bearer index has at most three entries per member |
| `Identity.StoreBounded` | src/state.rs:57-63 | members, buckets and bearers are bounded by the cohort that passed the gate |
| `RateLimit.LevelIsLeastWindow` | src/state.rs:90-102 | the refilled level is the least, over all earlier calls, of what the window from that call leaves of the burst |
| `RateLimit.SlidingWindow` | src/state.rs:90-102 | with nondecreasing readings a call is admitted if and only if, for every earlier call j of the pubkey, admissions since j plus one are at most 5 + 0.1 times the time since j |
| `RateLimit.RefusedLeavesNoTrace` | src/state.rs:90-102 | deleting a refused call changes no other decision |
| `RateLimit.NeverOverspent` | src/state.rs:90-102 | for any clock the level stays within the bucket, and tokens spent plus tokens left never exceed the burst plus forward refill |
| `RateLimit.AdmissionsBounded` | src/state.rs:25-30 | for any clock admissions are at most 5 plus 0.1 times the sum of the positive differences of successive readings |
| `RateLimit.BucketIsOwnReadings` | src/state.rs:90-102 | in any history a pubkey's bucket depends on its own readings only |
| `RateLimit.StoreDecides` | src/state.rs:90-102 | the store's decision in any history is that of the pubkey's own run, hence the sliding-window law |
| `Chat.ClientView` | src/chat.rs:78-96 | in every interleaving the client sees a prefix of the data frames before any upstream error, then at most one revoked frame, then nothing; the channel holds at most sixteen items |
| `Chat.ChunksFrameByFrame` | src/chat.rs:83-85 | a data frame is one item, trailers and errors are none, in order |
| `Chat.NothingLost` | src/chat.rs:83-96 | a finished, fully read relay delivered every data frame up to the end or an upstream error, or closed with the revoked frame |
| `Chat.RevokedOnlyIfDead` | src/chat.rs:88-91 | a revoked frame is pending, queued or delivered only if the bearer, live when the request was authorised, was dead at some point since |
| `Chat.OwedNeverGrows` | src/chat.rs:88-95 | once the bearer is dead, frames delivered, queued or past the check never increase |
| `Chat.AtMostSeventeen` | src/chat.rs:78-96 | once the bearer is dead at most seventeen more data frames reach the client |
| `Chat.SeventeenAlong` | src/chat.rs:78-96 | the same along one run: from any point at which the bearer is dead to the end of the run |
| `Chat.StaysSilent` | src/chat.rs:83-96 | once the bearer is dead every data frame fetched is answered by the revoked frame or still waits for its check |
| `Chat.AnsweredAlong` | src/chat.rs:87-91 | from any point at which the bearer is dead, a task that finishes while the client is there has announced the revocation or fetched no further data frame |
| `Chat.HangUpStops` | src/chat.rs:92-94 | after a hang-up nothing is delivered and at most one more data frame is taken from upstream |
| `Chat.SeventeenReached` | src/chat.rs:78-96 | the bound is attained by a revoke that meets a full channel and one frame past the check |
| `Chat.SeventeenHappens` | src/chat.rs:78-96 | one enrol and its revoke give a run with fresh tokens in which all seventeen arrive |
| `ChatTask.Task.constructor` | src/chat.rs:78-82 | the task starts before the first frame with an empty channel |
| `ChatTask.Task.Others` | src/chat.rs:78-80 | whatever other handlers do to the store and the client to the channel, the run stays a run of the state machine |
| `ChatTask.Task.Push` | src/chat.rs:89-95 | a send waits for room, fails when the client hung up, and is the machine's send step |
| `ChatTask.Task.PassOn` | src/chat.rs:87-95 | the check decides between the frame and the revoked frame, which ends the task |
| `ChatTask.Task.Loop` | src/chat.rs:81-96 | the loop ends finished or is left waiting at a full channel; all it did is a run of the state machine |
| `ChatTask.Seen` | src/chat.rs:81-96 | every run of the loop shows the client a fair view; with fresh tokens, from any point at which the bearer was dead, at most seventeen more frames arrive and a data frame fetched since is answered by the revoked frame |
| `ChatTask.Bearer` | src/chat.rs:45-48 | the token is what follows the prefix, and only headers with the prefix have one |
| `ChatTask.Serve` | src/chat.rs:50-96 | each refusal (bearer, bad upstream request, backend unavailable, backend status) has its exact condition and leaves the store alone; otherwise the task's fields are where its recorded run on the shared store leads, and that run has the prefix view, the honest revoked frame, completeness, the seventeen-frame bound and the answer to a dead bearer |
| `Manage.Verify` | src/manage.rs:41-53 | the rejection, or the signed action, that the envelope deserves; no store access |
| `Manage.SignedIff` | src/manage.rs:41-53 | a request counts as signed with an action exactly when both fields decode, the key accepts the signature over the payload and the payload parses to the action |
| `Manage.TargetIff` | src/manage.rs:60-66 | a revoke has a target exactly when its hash is hex for 32 bytes |
| `Manage.Apply` | src/manage.rs:60-71 | an ill-formed or unknown action changes nothing; a revoke removes the member found |
| `Manage.Handle` | src/manage.rs:40-72 | stated on the decoded payload and signature themselves: without an accepted signature, or malformed, or replayed, no trace; otherwise the nonce is spent, and only a revoke naming 32 bytes in hex removes the member found |
| `Manage.StoreIsHistory` | src/manage.rs:40-72 | the store of any interleaved run is the store of its history |
| `Manage.AlwaysGood` | src/manage.rs:55-58 | the seen set is exactly the nonces of signed, well-formed requests that reached the guard, and each has exactly one winner |
| `Manage.SeenNoncesSigned` | src/manage.rs:41-58 | every seen nonce came in an envelope whose decoded signature the key accepts over the decoded payload that carries it |
| `Manage.AppliedStaysDone` | src/manage.rs:60-71 | a request whose action was applied stays finished in every continuation |
| `Manage.OneApplyPerNonce` | src/manage.rs:55-71 | two applied actions of one run never carry the same nonce |
| `Manage.RejectedLeavesNoTrace` | src/manage.rs:41-53 | for an envelope that does not decode, is not accepted by the key or does not parse: without its moves the run is still a run, with the same store and the same progress of every other request |
| `Manage.HandleInRun` | src/manage.rs:40-72 | from any point of any interleaving the handler's code goes through the moves of its request and ends with the machine's store and answer |
| `Manage.EveryRunResolves` | src/manage.rs:40-72 | in every interleaving live bearers resolve to listed pairs, and right after an applied revoke no bearer resolves to its hash when the manifest lists each hash once |
| `Enrol.InManifest` | src/enroll.rs:93-99 | the text search finds a pair exactly when the manifest denotes those bytes |
| `Enrol.Handle` | src/enroll.rs:55-116 | each refusal has its exact condition, written on the credentials, the account token, the SHA-1 of namespace and sub and the hash of sub followed by the transaction id; otherwise the bearer is minted and recorded under that pubkey and hash; a refusal leaves the store unchanged |
| `Enrol.EligibleIff` | src/enroll.rs:60-102 | eligibility test by test, down to what is hashed and compared |
| `Enrol.MintedStaysPaired` | src/enroll.rs:93-113 | histories of this handler stay paired with the manifest |
| `Enrol.FreshDrawsFreshTokens` | src/enroll.rs:104-110 | draws that never repeat give tokens that never repeat |
| `Enrol.EligiblePassesHandshake` | src/enroll.rs:93-102 | whoever can enrol passes the handshake gate |
| `Enrol.GatedStoreBounded` | src/mtls.rs:78-83 | with the gate in front, members and buckets are at most the distinct manifest pubkeys and bearers three times that |
| `Manifest.ContainsPubkeyIff` | src/manifest.rs:33-36 | case-insensitive text membership is membership of the decoded bytes |
| `Manifest.ContainsPairIff` | src/enroll.rs:93-99 | the same for pairs |
| `Manifest.PairImpliesHandshake` | src/enroll.rs:93-99 | a pair match implies the handshake match |
| `ChainCheck.WalkIff` | src/enroll.rs:153-177 | the running counter from any depth succeeds if and only if its budget and every constraint below have room |
| `ChainCheck.RfcPathIff` | src/enroll.rs:153-177 | the counter accepts if and only if each constraint has room for the charged certificates below it |
| `ChainCheck.ChargedIsCount` | src/enroll.rs:166-171 | the charged certificates below a depth are the intermediates there that are not self-issued |
| `ChainCheck.NeverMorePermissive` | src/enroll.rs:166-171 | the depth test accepts no chain the counter rejects |
| `ChainCheck.PathVerdictsAgree` | src/enroll.rs:166-171 | without self-issued intermediates the verdicts coincide, root constraint included |
| `ChainCheck.AgreeIffNoneSelfIssued` | src/enroll.rs:166-171 | verdicts agree under every choice of constraints if and only if no intermediate is self-issued |
| `ChainCheck.RootLimit` | src/enroll.rs:166-171 | for every other chain, of any length, a root constraint that separates the verdicts |
| `ChainCheck.ValidatesIff` | src/enroll.rs:142-177 | the standard's single pass is the signature links, the per-certificate tests and the counter |
| `ChainCheck.AcceptedParts` | src/enroll.rs:142-177 | the code's separate passes, on readable key usage, are the links, the per-certificate tests and the depth test |
| `ChainCheck.VerdictsAgree` | src/enroll.rs:128-177 | root pin, length, signature links and constraints together: on chains with readable key usage and no self-issued intermediate the walk accepts exactly what the standard's single pass accepts |
| `ChainCheck.AcceptedIff` | src/enroll.rs:134-177 | the code's verdict on a chain test by test: pin, links, windows, CA, path length, key usage |
| `ChainCheck.RfcAcceptedIff` | src/enroll.rs:134-177 | the standard's verdict test by test: a path length limits the intermediates below that are not self-issued |
| `ChainCheck.HeaderAcceptedIff` | src/enroll.rs:128-177 | a header is accepted exactly when it has two to five entries that decode and parse, the hash of the last is the pinned one, each is signed by the next, all are in their window, and every issuer is a CA within its path length that may sign |
| `ChainCheck.AcceptedChainIff` | src/enroll.rs:153-177 | an accepted chain satisfies the standard if and only if every issuer's key usage is readable |
| `ChainCheck.HeaderVerdict` | src/enroll.rs:128-177 | the verdict on an x5c header is the standard's verdict on the certificates it denotes; a header that does not decode or parse is refused |
| `ChainCheck.HeaderAlphabets` | src/enroll.rs:132-132 | writing the certificates in the other alphabet changes no verdict |
| `ChainCheck.UnreadableUsageAccepted` | src/enroll.rs:172-176 | every pinned and signed two-certificate chain whose root has unreadable key usage is accepted by the code and refused by the standard |
| `Hex.HexEncode` | src/lib.rs:40-47 | the loop computes the specification |
| `Hex.HexDecode` | src/lib.rs:49-69 | the loop computes the specification, odd lengths and bad symbols included |
| `Hex.EncodeAt` | src/lib.rs:38-47 | each byte is two symbols of the table, the high half first |
| `Hex.DecodeSucceedsIff` | src/lib.rs:49-69 | decoding succeeds exactly on an even number of the twenty-two hex digits |
| `Hex.DecodeEncode` | src/lib.rs:40-69 | decoding an encoding gives the bytes back |
| `Hex.EncodeDecode` | src/lib.rs:40-69 | encoding a decoding gives the text in lower case |
| `Hex.DecodeIgnoresCase` | src/lib.rs:53-60 | decoding ignores case |
| `Hex.MatchIffDecodes` | src/manifest.rs:33-36 | a text equals an encoding up to case if and only if it decodes to the bytes |
| `Base64.Shift` | src/lib.rs:122-126 | one step of the wrapping 32-bit accumulator appends the sextet to the unbounded bit string |
| `Base64.B64DecodeAny` | src/lib.rs:105-130 | the accumulator loop computes the leading whole bytes of the concatenated sextets |
| `Base64.DecodeSucceedsIff` | src/lib.rs:106-121 | decoding succeeds if and only if every character is among the two alphabets, =, line feed and carriage return, listed as such |
| `Base64.OtherSpaceFails` | src/lib.rs:102-121 | a blank or a tab anywhere makes decoding fail |
| `Base64.SkippedAnywhere` | src/lib.rs:119-121 | padding and line breaks inserted anywhere change nothing |
| `Base64.AlphabetsInterchange` | src/lib.rs:106-115 | exchanging the alphabets, symbol by symbol, changes nothing |
| `Base64.B64Encode` | src/attestation.rs:237-251 | the padded-chunk loop computes the bit-string encoding in the standard alphabet |
| `Base64.B64UrlNoPad` | src/lib.rs:74-100 | the exact-chunks-and-remainder loop computes it in the URL alphabet, unpadded |
| `Base64.SymbolTables` | src/attestation.rs:237-237 | the symbols are those of the two tables, in their order |
| `Base64.Vectors` | src/attestation.rs:296-304 | four of the published examples of RFC 4648 |
| `Base64.DecodeEncode` | src/lib.rs:74-130 | decoding the output of either encoder gives back the input |
| `Base64.EncodeInjective` | src/lib.rs:74-100 | different inputs never share an encoding |
| `Base64.UrlIsStdTranslated` | src/attestation.rs:237-251 | the URL form is the padded form stripped of padding and translated |
| `Sha1.Pad` | src/lib.rs:137-143 | the padding loop stops at the specified fill; the length field wraps as u64 does |
| `Sha1.ZeroFillLeast` | src/lib.rs:140-142 | the fill is the least one section 5.1.1 of FIPS 180-4 allows |
| `Sha1.PaddedIsFips` | src/lib.rs:137-143 | under 2^61 bytes the byte-wise padding is the standard's bit-wise padding, which ends in the 64 binary digits of the length |
| `Sha1.LengthField` | src/lib.rs:137-143 | the eight length bytes are the binary digits of the length in bits, most significant first |
| `Sha1.BigEndianBytes` | src/lib.rs:147-147 | the first of four bytes is the most significant of the word |
| `Sha1.WordBytesRebuild` | src/lib.rs:173-176 | the four bytes of a word read back as the word |
| `Sha1.RotlMoves` | src/lib.rs:150-163 | a rotation by 1, 5 or 30 moves the high bits below the others and changes nothing else |
| `Sha1.AdditionWraps` | src/lib.rs:160-171 | sums carry and wrap at 2^32 |
| `Sha1.PaddingInjective` | src/lib.rs:137-143 | different messages are never padded alike, whatever their length |
| `Sha1.Schedule` | src/lib.rs:145-151 | the 80-word array holds the recursive message schedule |
| `Sha1.OrForms` | src/lib.rs:155-157 | the OR forms of Ch and Maj equal the XOR forms of section 4.1.1 |
| `Sha1.RoundFunction` | src/lib.rs:154-159 | function and constant of each round are the standard's |
| `Sha1.RunRounds` | src/lib.rs:152-166 | the rotating variables are the recursive working variables after 80 rounds |
| `Sha1.Compress` | src/lib.rs:144-172 | one block adds its rounds to the intermediate hash in place |
| `Sha1.HashBlocks` | src/lib.rs:136-172 | the block loop reaches the standard's final hash value |
| `Sha1.HashIsFips` | src/lib.rs:135-178 | the byte-level digest is the digest of the message as bits |
| `Sha1.Digest` | src/lib.rs:135-178 | the loops compute the digest of section 6.1.2 for every input under 2^61 bytes |
| `Uuid.UuidV5` | src/lib.rs:182-193 | without hyphens the text is hex for the stamped first sixteen bytes of the standard's digest of namespace and name, in that order |
| `Uuid.StampFields` | src/lib.rs:189-190 | version 5, variant 10, the other 122 bits untouched |
| `Uuid.FormatShape` | src/lib.rs:192-192 | hyphens at positions 8, 13, 18 and 23 and nowhere else |
| `Uuid.FormatHyphens` | src/lib.rs:191-192 | without its hyphens the text is the hex of the bytes |
| `Uuid.OnlyHyphensGo` | src/lib.rs:198-198 | every other character is kept as often as it occurs |
| `Uuid.UuidEqIff` | src/lib.rs:197-200 | under Unicode lower-casing a text matches a UUID if and only if, hyphens removed, it is hex for its bytes in any case |
| `Pem.ScannersAgreeIff` | src/attestation.rs:173-182 | the two scanners locate the same blocks if and only if the scan meets no BEGIN marker overlapped by an END marker |
| `Pem.ScannersAgree` | nix/gpu-report.py:81-92 | they agree on every text whose BEGIN markers are followed by a line break |
| `Pem.SharedDashes` | nix/gpu-report.py:85-85 | a text on which one finds an empty block and the other none |
| `Pem.BodiesAreBlocks` | src/attestation.rs:173-182 | re-slicing the remaining text finds the bodies at the located positions |
| `Pem.LiftBlocks` | src/attestation.rs:171-183 | the scanning loop terminates and returns the non-empty decodable bodies in order |
| `Pem.PckChainFromQuote` | src/attestation.rs:166-184 | the same for the certificate markers |
| `Pem.BlockByBlock` | src/attestation.rs:173-182 | a block gives its certificate if its body decodes to something and nothing otherwise, and the scan goes on after it |
| `Pem.LocateByIndex` | nix/gpu-report.py:80-91 | the index loop visits the blocks of the index scanner |
| `PemRoundTrip.RoundTrip` | src/attestation.rs:166-184 | wrapped certificates, with any line breaks, gaps and marker-free tail, come back exactly and in order |
| `PemRoundTrip.ScriptRoundTrip` | nix/gpu-report.py:75-92 | the script's scanner returns the same bundles exactly and in order, if its library decoder undoes standard base64 |
| `Attestation.ParseNonces` | nix/gpu-report.py:95-108 | all arguments decode to 32 bytes each, or none is used |
| `Attestation.DerCertsFromPem` | nix/gpu-report.py:75-92 | the re-encoded certificates of a bundle, white space removed from each body as str.split does, or failure if a body does not decode |
| `Attestation.Squeeze` | nix/gpu-report.py:89-89 | exactly the white space of str.split is removed |
| `Attestation.HelperMain` | nix/gpu-report.py:118-191 | the script prints every device's answer in order, or refuses: no nonce, a bad nonce, a driver call that raises, the wrong count or mode, or an empty answer |
| `Attestation.NoncesSurvive` | src/attestation.rs:193-195 | nonces survive hex out and hex in |
| `Attestation.ChainSurvives` | src/attestation.rs:224-228 | certificates survive base64 out and base64 in |
| `Attestation.DecodeChain` | src/attestation.rs:224-228 | the decoded chain, or failure at the first bad entry |
| `Attestation.GpuSurvives` | src/attestation.rs:222-233 | a printed report and chain decode to what was printed |
| `Attestation.DecodeGpu` | src/attestation.rs:222-233 | the decoded report and chain, or failure if one does not decode or is empty |
| `Attestation.AnsweredIff` | src/attestation.rs:190-217 | the service gets a list exactly when the script starts, the driver opens and closes, the counts agree, the mode is the encrypted one, the output is understood, and entry i is what device i reported for nonce i with the certificates of its own bundle |
| `Attestation.UnansweredIff` | src/attestation.rs:190-217 | it gets nothing exactly when one of those fails |
| `Attestation.DeviceAnswerIff` | nix/gpu-report.py:171-184 | an answer is device i's own non-empty report for the nonce and the non-empty certificates of its own bundle |
| `Attestation.AttestGpus` | src/attestation.rs:98-121 | report i is the encoding of what device i said to the hash of nonce, key hash and i, and chain i that of its own certificates |
| `Attestation.GpuReportsAll` | src/attestation.rs:190-235 | for any host the result is exactly what the devices answered, or failure exactly when the script cannot be started, refuses or prints what is not understood |
| `Attestation.EncodeGpus` | src/attestation.rs:117-121 | reports and chains are the standard padded encodings, in order |
| `Attestation.HashInputInjective` | src/attestation.rs:258-264 | the 65 hashed bytes determine nonce, key hash and slot |
| `Attestation.ChallengesDistinct` | src/attestation.rs:98-100 | two challenges hash the same bytes exactly for the same nonce, key hash and slot, so the eight inputs of a request are pairwise distinct |
| `Attestation.Handle` | src/attestation.rs:70-132 | fails closed under exact conditions, or returns the quote over nonce and key hash and eight reports in standard padded base64: report i is byte for byte what device i reported for the hash of nonce, key hash and i, chain i the certificates of its own bundle |

## Left out

- Signature verification, JWT and JWS decoding, X.509 and JSON parsing, SHA-256: library code, taken as arbitrary functions that may fail; no theorem needs SHA-256 to be injective.
- The payload checks after the x5c walk (`src/enroll.rs:179-194`): field comparisons on the library's result; `/enroll` takes the verified transaction as given.
- TLS acceptor, boot code and router: plumbing; only the fact that a gated pubkey is in the manifest is used.
- configfs, the subprocess, NVML and the upstream HTTP call: arbitrary oracles that may fail; the per-request entry names of `tdx_quote` are not modelled.
- Attestation.GpuReportsAll: JSON that is understood carries the printed strings unchanged; other corruption in transit is not modelled.
- Attestation.Handle: one host answers one request; it does not relate the answers of a device to the same nonce in two requests.
- Attestation.DerCertsFromPem: the script's library base64 decoder is an arbitrary function that may fail, since its leniency is not the repository's code.
- RateLimit.SlidingWindow: levels are real numbers, so rounding of the 64-bit floats is not modelled.
- Uuid.UuidEqIff: the Unicode tables are not part of the model; it assumes of lower-casing that ASCII is lower-cased as usual and that no other character becomes hex digits only, both true of Unicode.
- Pem.PckChainFromQuote: the lossy UTF-8 decoding of the quote is done by the caller, so texts are sequences of characters.
- Store.MemberStore.RevokeByMemberHash: the order in which the map is searched is not modelled; the member found is any with the hash.
- ChatTask.Task.Loop: others act between the statements of the loop as a given schedule says; a schedule that never makes room leaves the task waiting. Termination under fair scheduling is not stated.
- Base64 and hex tables are written as character ranges rather than as literal tables.
- Lock poisoning, async scheduling and HTTP status texts: no property of the state depends on them.
- Nix files, shell scripts and pinned data: build inputs.
