# SDID bridge: a Dafny model of its hard parts

The SDID bridge lets a relying party ask a citizen, on an enrolled phone, to approve a login. A broker issues single-use
challenges, the phone signs them with a hardware key, and an approved request becomes exactly one token. Around that sit
two hand-written binary readers for attestation data, a hash-chained audit trail, key custody shared by replicas, and
several small machines with counters and clocks. This project models those parts and proves what they promise.

| file | what it models |
|---|---|
| `Protocol.dfy` | transactions, codes, bindings, challenges and sessions as tables; every handler as a thread of single database, Redis, clock or signing steps, interleaved with any others; a row read and the clock reading that follows it in the same handler are one step |
| `ProtocolInvariant.dfy`, `ProtocolPreserved.dfy` | what every step keeps, whatever the other threads did in between |
| `ProtocolRuns.dfy`, `ProtocolFrames.dfy` | the history a run records is true of the states it went through; what steps leave alone |
| `ProtocolTheorems.dfy`, `ProtocolRows.dfy` | what holds of every run: tokens, agreement, single use, re-verification, status moves, PKCE and nonce |
| `ProtocolIssuing.dfy`, `ProtocolSuspension.dfy` | for whom challenges are issued; suspension, SDID's refusal and revocation take effect |
| `ProtocolContacts.dfy`, `ProtocolTimes.dfy` | where the times on a binding row come from, so that the cadence test rests on SDID's answers |
| `ProtocolProgress.dfy` | the honest path through the same steps: after any run, it still ends with the token that is due |
| `Challenge.dfy` | the challenge payload and when it is unambiguous |
| `Cbor.dfy`, `CborText.dfy`, `Der.dfy`, `DerScalars.dfy`, `OidText.dfy`, `Ecdsa.dfy` | the canonical readers and the signature re-encoder, each against a specification encoder; which values share what is delivered of them, and which OBJECT IDENTIFIER contents a dotted text |
| `Json.dfy`, `JsonRead.dfy` | the canonical printer, and a separate reader of JSON that makes of its text what the value means |
| `AuditChain.dfy`, `AuditText.dfy`, `AuditRuns.dfy` | the chain, its verifier, what the hashed text says, and appends under the lock |
| `Usage.dfy`, `Breaker.dfy`, `RateLimit.dfy`, `Lockout.dfy`, `Reverify.dfy`, `KeyRotation.dfy` | usage tallies, circuit breaker, rate limit and lockout, re-verification sweep, key rotation |
| `Redact.dfy` | log redaction |
| `Common.dfy`, `Radix.dfy`, `Base128.dfy` | shared: results and buffers, positional notation, base-128 numbers |

Conventions. A step that is not enabled changes nothing, so any sequence of steps is a run and every theorem about runs
covers every interleaving. Signatures are symbolic: verification succeeds exactly when an earlier entry of the history
signed that payload with that key; keys in `World.honest` are held by unmodified clients, which sign only payloads they
rebuilt themselves, while every other key signs anything. Random identifiers are fresh and, like the base64url text they
are, free of colons. The protocol's history (`log`, `approvals`, and the fields marked as history) is never consulted by
a guard. SHA-256 is any function whose results look like a hexadecimal digest. Such a function always has collisions, so
none is ruled out: where one would matter the theorem names the two texts of the chain or row that would have to collide.
Text that matters unit by unit is a sequence of UTF-16 code units or of bytes.

Where code and comment differ, the code is modelled: the ECDSA converter cites section 3.4 of RFC 7515 but produces the
form of section 3.4 of RFC 7518; its `normalizeEcdsaSignature` calls the two encodings trivially distinguishable, yet
returns a 64-octet DER signature unchanged and refuses an 8-octet one; `rotate` promises never to see two active keys,
which a first-boot race breaks; `stableStringify` is canonical only up to the exceptions `Json.Meaning` names; the lockout
can be missed or shortened when its Redis commands interleave.

## Model

| member | source | states |
|---|---|---|
| ProtocolPreserved.ExecInv | apps/broker/src/modules/oidc/oidc.controller.ts:126-279 | after every run of interleaved handler steps, every history entry is justified by earlier ones, every approved row and code row agrees with the entry that made it, everything spent stays spent, nothing is spent twice, and every piece of evidence is held or used up once |
| ProtocolPreserved.ApplyKept | apps/broker/src/modules/ciba/ciba-device.controller.ts:107-208 | any single step of any handler, from any state satisfying the invariant, keeps it |
| ProtocolPreserved.DecideKept | apps/broker/src/modules/ciba/ciba-device.controller.ts:180-188 | the compare-and-set on a pending row keeps the invariant whether it wins or loses, and an approval leaves the row holding what the decision read |
| ProtocolPreserved.RedeemKept | apps/broker/src/modules/oidc/oidc.controller.ts:182-190 | the compare-and-set on an approved row, shared by both redemption paths, redeems only what the approval granted |
| ProtocolRuns.LogIsTrue | apps/broker/src/modules/ciba/ciba-device.controller.ts:117-188 | every entry of every run was written by one step and records the rows as they were just before it and as it left them |
| ProtocolTheorems.TokenImpliesApproval | apps/broker/src/modules/oidc/oidc.controller.ts:126-279 | a token response implies an earlier approve decision whose handler read the transaction pending and unexpired, the binding active, of the same citizen and of a level that suffices (any for AL1, not AL1 for AL2, AL3 for AL3), had SDID recent or answering, spent a challenge issued for that request and binding, verified the binding's signature on the approve payload and won the compare-and-set; the token carries that request's client, citizen and scopes, that binding's level and that decision's time, and goes to that client |
| Protocol.RanksOrder | packages/shared/src/assurance.ts:5-10 | a level suffices for AL1 whatever it is, for AL2 unless it is AL1, for AL3 only if it is AL3 |
| ProtocolTheorems.TokensAreStrongEnough | packages/shared/src/assurance.ts:5-10 | no token for a request that asked for AL2 says AL1, and every token for one that asked for AL3 says AL3 |
| ProtocolTheorems.AcceptedRequestsAgree | apps/broker/src/trust/challenge.service.ts:23-135 | every accepted activation, login or decision answers an earlier challenge for that purpose and binding with a signature by the binding's key, and an honest key means its client ran exactly that request |
| ProtocolTheorems.AcceptedRequestsDiffer | apps/broker/src/trust/challenge.service.ts:43-51 | two accepted requests share no challenge, payload, issuing entry or signature; a CIBA challenge yields at most one of approve and deny |
| ProtocolTheorems.ChallengesVerifyOnce | apps/broker/src/trust/challenge.service.ts:120-135 | no challenge lies behind two verified signatures, even of decisions that then lost their compare-and-set |
| ProtocolTheorems.HonestSignature | apps/mobile/src/core/client.ts:365-423 | a verified signature by an unmodified client's key means the client ran that purpose with that challenge and nonce |
| ProtocolIssuing.ChallengesWereDue | apps/broker/src/modules/ciba/ciba-device.controller.ts:57-99 | a challenge to decide a transaction is issued only after a moment at which that transaction was pending and unexpired and the binding its own citizen's, active and logged in; one to log in, only after the binding was active |
| ProtocolSuspension.TakingSpends | apps/broker/src/trust/challenge.service.ts:43-51 | a challenge a handler takes is gone whether or not its record matches the request, and the handler goes on exactly if it matches |
| ProtocolTheorems.ApprovalsAndSessionsAreReverified | apps/broker/src/trust/reverification.service.ts:58-139 | every applied approval and minted session comes from a handler in which the binding's last SDID contact was younger than the interval or SDID had just answered valid; an AL3 approval always has the answer |
| ProtocolSuspension.AcceptedWereNotSuspended | apps/broker/src/trust/reverification.service.ts:90-95 | where an accepted login or approval rests on SDID's answer, its citizen was not suspended at some moment between the reading of the binding and that answer |
| ProtocolSuspension.RefusalShutsOut | apps/broker/src/trust/reverification.service.ts:99-124 | after an invalid answer the handler suspends the citizen, then revokes exactly the citizen's active bindings, and ends without an entry |
| ProtocolSuspension.SweepShutsOutOrRefreshes | apps/broker/src/trust/reverification.service.ts:99-132 | so do the sweep's own writes: suspended, no active binding left, or every active binding refreshed with the contact's time |
| ProtocolSuspension.RevokedNeedsActivation | apps/broker/src/modules/ciba/ciba-device.controller.ts:130-137 | once a binding is revoked, no handler reads it active unless an activation of that binding has finished since |
| ProtocolContacts.SdidIsBehindEveryAcceptance | apps/broker/src/trust/reverification.service.ts:46-141 | behind every applied approval and minted session the run itself holds SDID's valid answer in that handler, or, dated at or before that handler's clock reading and within the interval, an earlier valid answer about that citizen (another request's or the sweep's) or that binding's activation |
| ProtocolContacts.ExecContacts | apps/broker/src/trust/reverification.service.ts:123-126 | on every row, and in every row a handler read, the re-assertion and activation times are those of earlier entries of the run, and an active row has been activated |
| ProtocolTimes.ExecPast | apps/broker/src/trust/reverification.service.ts:54-64 | no row, thread or cadence test of any run names a time later than the clock it was held against |
| ProtocolTheorems.RedeemedAtMostOnce | apps/broker/src/modules/oidc/oidc.controller.ts:182-190 | over both endpoints a transaction is redeemed at most once, and a code at most once |
| ProtocolTheorems.AtMostOneToken | apps/broker/src/modules/oidc/oidc.controller.ts:494-557 | a transaction yields at most one token response, whichever way it is redeemed |
| ProtocolTheorems.TokenConsumesTransaction | apps/broker/src/modules/oidc/oidc.controller.ts:182-199 | a transaction that yielded a token is consumed |
| ProtocolRows.StatusMoves | apps/broker/src/modules/oidc/oidc.controller.ts:138-190 | in one step a status moves only pending to approved, denied or expired and approved to consumed; rows are never removed and keep their fixed columns |
| ProtocolRows.StatusLater | apps/broker/src/modules/oidc/oidc.controller.ts:138-190 | along any continuation of a run denied, expired and consumed are final |
| ProtocolRows.RefusedYieldsNoToken | apps/broker/src/modules/oidc/oidc.controller.ts:162-173 | a transaction that is denied or expired at any point of a run yields no token anywhere in it |
| ProtocolRows.ApprovedRowsWereDecided | apps/broker/src/modules/ciba/ciba-device.controller.ts:107-188 | an approved or consumed row was set by a decision with all its evidence and holds its binding and time |
| ProtocolRows.ExpiredOnlyInTime | apps/broker/src/modules/oidc/oidc.controller.ts:142-159 | a row stands expired only once its expiry has passed |
| ProtocolRows.CodesAreBoundToTheirRequest | apps/broker/src/modules/oidc/oidc.controller.ts:230-260 | a code is redeemed only before it expires, only against the PKCE challenge and redirect URI of the authorize request that created its transaction, whose stash it holds, and carries the grant of that transaction's one redemption |
| ProtocolRows.TokensCarryTheirNonce | apps/broker/src/modules/oidc/oidc.controller.ts:260-267 | a token minted through a code carries the nonce of the authorize request of its transaction; one minted by the CIBA grant carries none |
| ProtocolRows.DecisionsFollowLogins | apps/broker/src/modules/devices/devices.service.ts:88-157 | whoever decided a transaction had earlier logged in as the same citizen on the same binding, with a spent challenge, a verified signature and re-verification of its own |
| ProtocolProgress.HonestVisitEndsWithItsToken | apps/broker/src/modules/oidc/oidc.controller.ts:494-557 | after any run, a citizen who enrols, logs in, is asked for AL1, the device's own level or anything its AL3 covers, and approves has a continuation in which the relying party gets, by either flow, the token for exactly what it asked, with its nonce, at the device's assurance and the time of the decision |
| ProtocolProgress.Activates | apps/broker/src/modules/enrolment/enrolment.service.ts:352-391 | an enrolled device that answers its activation challenge passes every check and becomes active; nobody else's row changes |
| ProtocolProgress.LogsIn | apps/broker/src/modules/devices/devices.service.ts:88-157 | an active device that answers its login challenge gets its session, if its SDID contact is recent or SDID answers well for a citizen not suspended |
| ProtocolProgress.Answers | apps/broker/src/modules/ciba/ciba-device.controller.ts:107-208 | from any state, a device that is listed a pending, unexpired request it is strong enough for and signs its answer leaves the row decided with that binding and time, and no other row changed |
| ProtocolProgress.CibaRedeems | apps/broker/src/modules/oidc/oidc.controller.ts:126-199 | a relying party asking for its own approved transaction gets the token the approval is worth, and the row is consumed |
| ProtocolProgress.CibaMarksExpired | apps/broker/src/modules/oidc/oidc.controller.ts:142-159 | a relying party asking for its own transaction past its expiry, still pending, finds it marked expired, and nothing else changed |
| ProtocolProgress.PollIssues | apps/broker/src/modules/oidc/oidc.controller.ts:495-546 | the poll turns an approved code-flow row into a code that carries the grant, the stash (PKCE challenge, redirect URI and nonce) and its expiry |
| ProtocolProgress.CodeRedeems | apps/broker/src/modules/oidc/oidc.controller.ts:230-279 | a live code presented by its client with the matching verifier and redirect URI gives the token of its grant with its nonce, and is spent |
| Challenge.PayloadInjective | packages/shared/src/protocol.ts:35-56 | a payload built from colon-free parts determines purpose, challenge and nonce against any other payload |
| Challenge.PayloadDeterminesIff | packages/shared/src/protocol.ts:35-56 | the exact condition: a payload determines purpose, challenge and nonce if and only if none of them holds a colon |
| Challenge.PayloadsSpelledOut | apps/device-sim/src/sim-device.spec.ts:29 | the payloads of an activation and of a login, letter by letter |
| Challenge.AnswersSpelledOut | packages/shared/src/protocol.ts:35-56 | the payloads of approving and of denying one request, letter by letter, and the one purpose both are stored under |
| Challenge.PayloadAmbiguousWithColons | packages/shared/src/protocol.ts:50-56 | with a colon in an identifier two different requests have one payload, `sdid-bridge:v1:ciba-approve:a:b:c:d` |
| Challenge.StoredPurposeInjective | apps/broker/src/trust/challenge.service.ts:99-135 | distinct requests are stored under distinct purposes; approve and deny of one request share theirs |
| Cbor.DecodeCbor | packages/attestation/src/cbor.ts:94-103 | returns a value exactly when the input is that value's shortest-form, definite-length encoding within the depth, item and byte limits; every key of a map in it is a text or an integer from -2^53 to 2^53 - 1, and no two are handed out alike |
| Cbor.DecodeExact | packages/attestation/src/cbor.ts:94-103 | the same for the reader's behaviour as a function, in both directions, for every input and value |
| Cbor.RefusalsSay | packages/attestation/src/cbor.ts:94-103 | the two refusals of the decoder itself, exactly: the input is longer than allowed, or a whole acceptable value is followed by more bytes |
| Cbor.KeyRules | packages/attestation/src/cbor.ts:226-232 | the reader's test of its keys passes exactly the maps whose keys are texts or such integers, no two handed out alike |
| Cbor.EncodePrefixFree | packages/attestation/src/cbor.ts:139-160 | no canonical encoding is a prefix of another |
| Cbor.ParseValue | packages/attestation/src/cbor.ts:183-253 | terminates on every input, never reads past the buffer, and items decoded never exceed bytes consumed |
| Cbor.CborReader.Argument | packages/attestation/src/cbor.ts:144-161 | reads the argument byte by byte and accepts only the shortest form |
| Cbor.CborReader.CountArgument | packages/attestation/src/cbor.ts:163-175 | a count is a safe integer and fits the bytes remaining |
| Cbor.CborReader.ReadValue | packages/attestation/src/cbor.ts:183-253 | the reader moves its cursor and item counter as the specification says, error for error |
| Cbor.CborReader.ReadItems | packages/attestation/src/cbor.ts:212-217 | the array loop collects the items in order |
| Cbor.CborReader.ReadMembers | packages/attestation/src/cbor.ts:218-233 | the map loop collects the pairs in order, refusing wrong and repeated keys |
| CborText.TextIff | packages/attestation/src/cbor.ts:83-92 | the bytes accepted as text are exactly the UTF-8 encodings of sequences of Unicode scalar values |
| CborText.KeyDelivered | packages/attestation/src/cbor.ts:226-232 | keys are told apart exactly by what is delivered of them |
| CborText.DeliveredReencodes | packages/attestation/src/cbor.ts:86 | the value handed out re-encodes to the input exactly when no text item began with a byte order mark |
| CborText.BomCollision | packages/attestation/src/cbor.ts:204-211 | two accepted inputs deliver one value: the empty text, and a lone byte order mark |
| CborText.SharesDeliveryIff | packages/attestation/src/cbor.ts:83-92 | the exact set: another well-formed value is delivered as this one is if and only if some text item of it begins with one byte order mark only, or begins with none and stays countable with three more bytes |
| CborText.InputSharesIff | packages/attestation/src/cbor.ts:83-103 | in terms of inputs: what an accepted input delivers, another input delivers too, if and only if that is so |
| Der.ParseDer | packages/attestation/src/der.ts:76-85 | returns a tree exactly when the input is that tree's DER encoding within the depth, node and byte limits |
| Der.ParseExact | packages/attestation/src/der.ts:76-85 | the same for the reader's behaviour as a function, in both directions |
| Der.RefusalsSay | packages/attestation/src/der.ts:76-85 | the two refusals of the parser itself, exactly: the input is longer than allowed, or a whole acceptable tree is followed by more bytes |
| Der.EncodePrefixFree | packages/attestation/src/der.ts:111-147 | the encoding of a tree is unique to it and no prefix of another |
| Der.NodeSound | packages/attestation/src/der.ts:149-184 | an accepted node is well formed, its children tile its content exactly, and the counter has gone up by exactly its nodes |
| Der.NodeComplete | packages/attestation/src/der.ts:149-184 | every well-formed tree within limits is read back from its encoding, at any offset |
| Der.ParseNode | packages/attestation/src/der.ts:149-184 | terminates on every input, stays within the buffer, and reads at least two bytes for every node |
| Der.DerReader.ReadTagNumber | packages/attestation/src/der.ts:111-130 | reads the tag number as specified; its limit on octets is never the one that fails |
| Der.DerReader.ReadLength | packages/attestation/src/der.ts:132-147 | reads the length as specified, error for error |
| Der.DerReader.ReadNode | packages/attestation/src/der.ts:149-184 | reads a node as specified, moving cursor and node counter |
| Der.DerReader.ReadChildren | packages/attestation/src/der.ts:169-181 | the nested reader over the parent's content hands back the node counter child by child |
| Base128.ScanNumberExact | packages/attestation/src/der.ts:115-129 | the base-128 loop accepts exactly the numbers up to its cap, each in its one encoding |
| DerScalars.DecodeTwosComplement | packages/attestation/src/der.ts:326-340 | a bijection between minimal non-empty byte strings and all integers, with the two refusals exactly characterised |
| DerScalars.DerOid | packages/attestation/src/der.ts:265-295 | the one-pass loop computes the specified arcs, error for error |
| DerScalars.OidAccepts | packages/attestation/src/der.ts:265-295 | accepted contents are exactly the encodings of non-empty lists of arcs up to 2^128 |
| DerScalars.OidExact | packages/attestation/src/der.ts:265-295 | with a first subidentifier up to 2^53 - 1, decoding is the exact inverse of arc encoding |
| OidText.NumberIsNearest | packages/attestation/src/der.ts:281-286 | the rounding of `Number` gives a double, and no double is nearer |
| OidText.DecimalReads | packages/attestation/src/der.ts:281-294 | an arc's numeral is decimal, without needless zeros, and reads as the arc |
| OidText.DottedParts | packages/attestation/src/der.ts:281-294 | a dotted text cut at its points is the numerals of the arcs in order |
| OidText.SafeTextIsDotted | packages/attestation/src/der.ts:286-294 | for safe first arcs the text is that dotted text |
| OidText.DottedTextsAgreeIff | packages/attestation/src/der.ts:265-295 | over all accepted contents, the dotted texts agree exactly when the first subidentifiers lead to the same two arcs and the other arcs agree |
| OidText.TwinIff | packages/attestation/src/der.ts:281-286 | a first subidentifier within the limit shares its two arcs with no other exactly when it is below 2^53, or below 2^54 and congruent to 2 modulo 4 |
| OidText.DottedOidUniqueIff | packages/attestation/src/der.ts:265-295 | an accepted content is the only one with its dotted text exactly when its first subidentifier is such a number |
| OidText.LargeFirstSubidsCollide | packages/attestation/src/der.ts:281-286 | first subidentifiers 2^53 and 2^53 + 1 read as the same identifier |
| Ecdsa.DerEcdsaToJose | apps/broker/src/keys/key-custody.ts:293-342 | returns exactly the two unsigned INTEGER contents in fixed width, for exactly the inputs that are a SEQUENCE of two INTEGERs that fit |
| Ecdsa.ReadHeader | apps/broker/src/keys/key-custody.ts:297-308 | accepts exactly the one-, two- and three-octet length forms that span the buffer |
| Ecdsa.ReadInteger | apps/broker/src/keys/key-custody.ts:310-318 | reads the INTEGER at the cursor, or there is none |
| Ecdsa.Pad | apps/broker/src/keys/key-custody.ts:320-333 | the unsigned value in fixed width, or refusal exactly when it does not fit |
| Ecdsa.ConvertRoundTrip | apps/broker/src/keys/key-custody.ts:293-342 | for all r and s below 2^(8w) with w up to 126, converting their DER encoding gives the two w-octet values, and nothing else |
| Ecdsa.NormalizeEcdsaSignature | apps/broker/src/keys/key-custody.ts:353-366 | returns 64-octet inputs unchanged, converts longer DER, refuses the rest |
| Ecdsa.NormalizeAgreesIff | apps/broker/src/keys/key-custody.ts:344-366 | for ES256, normalizing the DER encoding of (r, s) gives r and s joined if and only if it is longer than 8 octets and not 64 octets long |
| Json.PrintIsCanonicalOnJson | apps/broker/src/audit/audit.service.ts:7-15 | on JSON values the texts are equal exactly when the values are equal up to object key order, at any nesting |
| Json.PrintIsCanonical | apps/broker/src/audit/audit.service.ts:7-15 | on all values, undefined, NaN, infinities and -0 included, the texts are equal exactly when the values mean the same |
| Json.PrintUnique | apps/broker/src/audit/audit.service.ts:7-15 | a text followed by a delimiter is cut into a value and its continuation in one way |
| Json.QuoteUnique | apps/broker/src/audit/audit.service.ts:8 | quoted strings, with their escapes, surrogate pairs and lone surrogates, end where they end and determine their string |
| Json.PrintedMembers | apps/broker/src/audit/audit.service.ts:10-12 | filtering and sorting keep exactly the defined fields, in ascending key order |
| Json.LessIff | apps/broker/src/audit/audit.service.ts:12 | keys are ordered by the first code unit that differs, a prefix before the longer key |
| JsonRead.PrintReadsBack | apps/broker/src/audit/audit.service.ts:7-15 | a separate reader of JSON makes of the printed text what the value means, and accepts it exactly if no array holds an undefined element beside others |
| AuditChain.StoreMeaning | apps/broker/src/audit/audit.service.ts:67-85 | a jsonb column means what the event meant exactly when no array held an undefined element |
| AuditChain.StoredElement | apps/broker/src/audit/audit.service.ts:67-85 | an undefined element is stored as null at its own place |
| AuditChain.CanonicalTextDetermines | apps/broker/src/audit/audit.service.ts:118-136 | two events are hashed from one text exactly when every column has the same content |
| AuditText.HashedTextReads | apps/broker/src/audit/audit.service.ts:118-136 | any reader of JSON finds in the hashed text one object with the twelve named fields and no other, each holding its own column; the text is JSON exactly if no array of the event holds an undefined element beside others |
| AuditChain.RecomputedText | apps/broker/src/audit/audit.service.ts:148-160 | recomputation from the nullable stored columns prints the appended text exactly when the event held no undefined element |
| AuditChain.VerifyChain | apps/broker/src/audit/audit.service.ts:139-164 | intact exactly when every row links and hashes; otherwise the first row that does not |
| AuditRuns.AppendsAreAccepted | apps/broker/src/audit/audit.service.ts:57-103 | any interleaving of appends around the lock leaves rows in ascending order that the verifier accepts, for events without undefined elements |
| AuditRuns.AppendAlone | apps/broker/src/audit/audit.service.ts:57-92 | an append by itself adds exactly the row whose hash follows from the last one, and frees the lock |
| AuditRuns.RollbackFrees | apps/broker/src/audit/audit.service.ts:93-103 | an append that fails, however far it had come, leaves every row as it was and holds no lock |
| AuditRuns.HonestRowAcceptedIff | apps/broker/src/audit/audit.service.ts:57-103 | an appended row is accepted if and only if its event held no undefined element, or the text hashed at the append and the different text recomputed from its columns have one digest |
| AuditRuns.UndefinedElementChangesText | apps/broker/src/audit/audit.service.ts:7-15 | a context of `{"a":[undefined]}` is hashed as `{"a":[]}` and comes back as `{"a":[null]}` |
| AuditRuns.ChainsAgree | apps/broker/src/audit/audit.service.ts:139-164 | two accepted chains ending in the same hash have equal length and content row by row, unless two different texts hashed for a row of each, equally far from the end, have one digest |
| Usage.KeyUsage.Tally | apps/broker/src/keys/keys.service.ts:377-387 | one field of one kid goes up by one, from zero if absent |
| Usage.KeyUsage.RecordSigningFailure | apps/broker/src/keys/keys.service.ts:395-405 | the failure is counted, and either gets a row or is counted as suppressed, by the 60-second throttle |
| Usage.KeyUsage.SettleReported | apps/broker/src/keys/keys.service.ts:328-343 | the loop subtracts exactly the reported amounts and drops tallies that come to nothing |
| Usage.UsageIsConserved | apps/broker/src/keys/keys.service.ts:289-344 | over every run with non-overlapping flushes, for each kid and field, committed summaries plus the pending tally are exactly the signing, probing and failing steps of the run; the tally is never negative and is kept exactly while something is pending |
| Usage.FlushReportsAll | apps/broker/src/keys/keys.service.ts:289-344 | a flush that commits undisturbed leaves no tally, and the summaries grow by just what the tallies held |
| Usage.FailedFlushUndone | apps/broker/src/keys/keys.service.ts:289-325 | a flush whose append fails changes nothing |
| Usage.EventsAreCounted | apps/broker/src/keys/keys.service.ts:377-387 | over every run each signature, probe and failure of a kid is counted once, in its own field |
| Usage.CommitConservesIff | apps/broker/src/keys/keys.service.ts:326-343 | from any balanced state a commit keeps the balance of events, committed and pending amounts if and only if every non-empty report's tally is still there; that alone does not rule out an overdraft |
| Usage.CommitSoundIff | apps/broker/src/keys/keys.service.ts:326-343 | the exact condition for one commit: from balanced books without overdraft it keeps them so if and only if the tallies still back the whole report |
| Usage.RunSoundIff | apps/broker/src/keys/keys.service.ts:289-344 | the exact condition for whole runs, overlapping flushes included: each event is reported or pending once and no tally is negative throughout, if and only if every commit finds its whole report still in the tallies |
| Usage.OverlappingFlushesDoubleReport | apps/broker/src/keys/keys.service.ts:289-344 | two overlapping flushes report one signature twice |
| Usage.FailuresAreAccounted | apps/broker/src/keys/keys.service.ts:395-430 | over every run failures equal attempted rows plus suppressed ones, and rows of one kid are at least a minute apart |
| Usage.FailureRowIff | apps/broker/src/keys/keys.service.ts:400-404 | a failure gets its row exactly if 60 000 ms have passed since the kid's last row, or since the epoch for its first |
| Redact.ScrubStringHasNoRun | apps/broker/src/logging/redact.ts:136-141 | no scrubbed string holds sixteen consecutive digits, truncated or not |
| Redact.RunIsReplaced | apps/broker/src/logging/redact.ts:136-141 | a maximal run of sixteen digits or more becomes the mark, and the text before and after it is scrubbed by itself |
| Redact.ScrubStringUnchanged | apps/broker/src/logging/redact.ts:136-141 | a string is left alone exactly when it holds no run and is short enough or already cut; scrubbing twice is scrubbing once |
| Redact.RedactionHidesDenied | apps/broker/src/logging/redact.ts:152-210 | two trees that differ only beneath denied field names, or in the bytes of binary values, redact to the same output at every depth |
| Redact.RedactionIsClean | apps/broker/src/logging/redact.ts:152-210 | no string or rendered number in value position holds sixteen consecutive digits, an error's name excepted |
| Redact.ShownPlaceByPlace | apps/broker/src/logging/redact.ts:180-207 | above the depth limit a container shows at each of its first 32 elements and 64 fields the redaction of what was there, the mark under a denied name, how many elements more there were and that fields were left out, and nothing else; at the limit only that |
| Redact.ShownAlongPaths | apps/broker/src/logging/redact.ts:152-210 | whatever a path of at most six places reaches, through neither a denied name nor a limit, is shown there, redacted |
| Redact.LeavesShown | apps/broker/src/logging/redact.ts:152-178 | what takes the place of each kind of value with nothing inside |
| Redact.DecimalReads | apps/broker/src/logging/redact.ts:166-187 | the counts are decimal, without needless zeros |
| Redact.HarmlessUnchanged | apps/broker/src/logging/redact.ts:152-210 | a value within every limit, with no denied field name and no digit run, comes out as it went in |
| Redact.RedactInner | apps/broker/src/logging/redact.ts:152-210 | the walk computes the specified redaction |
| Redact.RedactItems | apps/broker/src/logging/redact.ts:185-189 | the first 32 elements, then how many more |
| Redact.RedactMembers | apps/broker/src/logging/redact.ts:197-207 | the object loop with its key counter, denied names and key limit |
| Breaker.CircuitBreaker.BeforeAttempt | packages/sdid-adapter/src/resilience.ts:59-75 | admission and the move to half-open |
| Breaker.CircuitBreaker.OnSuccess | packages/sdid-adapter/src/resilience.ts:77-81 | closes the circuit and clears the counter and the probe |
| Breaker.CircuitBreaker.OnFailure | packages/sdid-adapter/src/resilience.ts:83-97 | trips from half-open or at the threshold, otherwise counts |
| Breaker.BreakerInvariant | packages/sdid-adapter/src/resilience.ts:59-97 | for every order of events, half-open exactly while a probe is in flight, and the counter is the failures since the last success or trip, below the threshold |
| Breaker.ClosedIff | packages/sdid-adapter/src/resilience.ts:77-91 | in every reachable state the circuit is closed exactly while fewer than threshold failures came since the last success |
| Breaker.FailureOpens | packages/sdid-adapter/src/resilience.ts:83-97 | from closed exactly the threshold-th failure in a row opens the circuit, from half-open any, and the time out starts with it |
| Breaker.AdmitsExactly | packages/sdid-adapter/src/resilience.ts:48-75 | in every reachable state an attempt is admitted exactly when the circuit is closed, or open for at least resetMs, and only then a probe is marked; a rejection changes nothing |
| Breaker.OneProbeAtATime | packages/sdid-adapter/src/resilience.ts:67-75 | after a half-open admission every attempt is rejected until the next success or failure |
| Breaker.RejectsForResetMs | packages/sdid-adapter/src/resilience.ts:59-97 | after a trip and without a success every attempt is rejected for resetMs |
| Breaker.OutageBound | packages/sdid-adapter/src/resilience.ts:48-98 | during an outage a sequential caller starts at most threshold + floor(T / resetMs) calls in any interval of length T, from every reachable state |
| Breaker.Others | packages/sdid-adapter/src/resilience.ts:48-98 | any sequence of other callers' attempts, successes and failures moves the breaker as the specification says |
| Breaker.Execute | packages/sdid-adapter/src/resilience.ts:209-237 | at most retries + 1 calls, each admitted by the breaker as other callers left it, retrying only after faults and never past a rejection or a definite answer, with the breaker's final state |
| Breaker.AnswersClose | packages/sdid-adapter/src/resilience.ts:209-237 | a definite answer leaves the breaker closed with a clear count, and a call gives up only after faults at every attempt or a rejection |
| RateLimit.Hit | apps/broker/src/trust/rate-limit.service.ts:19-30 | succeeds exactly while the count is within the limit, and starts the window on the first hit |
| RateLimit.HitIsItsCommands | apps/broker/src/trust/rate-limit.service.ts:19-30 | one hit is its INCR and, if it made the key, its EXPIRE |
| RateLimit.LimitPerWindow | apps/broker/src/trust/rate-limit.service.ts:19-30 | from the creation of the key to its expiry, of n calls exactly min(n, limit) succeed |
| RateLimit.AtMostTwiceTheLimit | apps/broker/src/trust/rate-limit.service.ts:19-30 | in any half-open interval as long as the window at most twice the limit succeeds, for any interleaving of concurrent callers' commands |
| RateLimit.RecordFailure | apps/broker/src/trust/rate-limit.service.ts:36-43 | counts the failure; from the maximum on, a key still there then expires window x 2^min(count - max, 4) after the last command |
| RateLimit.AssertNotLockedOut | apps/broker/src/trust/rate-limit.service.ts:45-51 | refuses exactly when the live count has reached the maximum |
| RateLimit.ClearFailures | apps/broker/src/trust/rate-limit.service.ts:53-55 | forgets the failures of that key only |
| Lockout.LastExpireDecides | apps/broker/src/trust/rate-limit.service.ts:36-51 | over every interleaving of concurrent failures' commands, while the key lives it counts each failure, and checks refuse exactly from the maximum on and until the deadline of the last EXPIRE to land |
| Lockout.LockoutKeptIff | apps/broker/src/trust/rate-limit.service.ts:36-55 | a lockout until a deadline outlasts any interleaving of further commands before it if and only if no EXPIRE with an earlier deadline lands and nobody clears the failures |
| Lockout.KeptByAllIff | apps/broker/src/trust/rate-limit.service.ts:36-43 | the exact condition on the present state: every run before the deadline that nobody clears keeps the lockout if and only if neither the next failure nor any call under way can set an earlier deadline |
| Lockout.LandingLocksIff | apps/broker/src/trust/rate-limit.service.ts:36-43 | an EXPIRE sets the lockout until its deadline if and only if it finds the key there with the maximum reached |
| Lockout.SettledLockoutHolds | apps/broker/src/trust/rate-limit.service.ts:36-51 | in particular, if no call with a smaller count is still under way, a lockout holds for window x 2^min(count - max, 4) under every interleaving of later failures |
| Lockout.LockoutHolds | apps/broker/src/trust/rate-limit.service.ts:36-51 | the sequential case: every check refuses until window x 2^min(count - max, 4) after the failure, whatever further failures do, unless cleared |
| Lockout.LateLockoutShortens | apps/broker/src/trust/rate-limit.service.ts:36-43 | the third failure's EXPIRE landing after the fifth's ends the lockout at 102 instead of 401 |
| Lockout.LateWindowShortens | apps/broker/src/trust/rate-limit.service.ts:36-43 | so does the first failure's EXPIRE of the plain window |
| RateLimit.LockoutTakesHoldIff | apps/broker/src/trust/rate-limit.service.ts:36-43 | a failure that reaches the maximum locks if and only if the key had not expired between its commands |
| Reverify.Service.ReassertNow | apps/broker/src/trust/reverification.service.ts:83-141 | the outcome, the rows written and whether SDID was asked, for each answer of SDID and for a citizen who is suspended, missing or without a subject, with other handlers writing before each of its reads and writes |
| Reverify.Service.CollectDue | apps/broker/src/trust/reverification.service.ts:163-170 | exactly the citizens with an active binding whose last re-assertion, or else activation, or else enrolment is at least the interval ago, each once |
| Reverify.Service.Sweep | apps/broker/src/trust/reverification.service.ts:155-192 | with other handlers writing before and during every turn, due citizens are handled in order and once each, SDID is asked about exactly those not refused and about nobody twice; unless something other than a refusal is thrown reasserted + revoked = min(limit, due), and otherwise the sweep stops at the first that throws |
| Reverify.Service.HandleDue | apps/broker/src/trust/reverification.service.ts:172-190 | the second loop: rows, contacts and counters after the citizens it handled |
| Reverify.AskedOnce | apps/broker/src/trust/reverification.service.ts:172-190 | nobody is asked about twice, however many are handled |
| Reverify.ReassertSettles | apps/broker/src/trust/reverification.service.ts:99-139 | whatever other handlers write meanwhile, after a contact all the citizen's active bindings carry its time, or none is active and the suspension stands unless lifted; where SDID gave no answer, or the citizen was suspended or unknown before, the turn wrote nothing |
| Reverify.UpdatesSettle | apps/broker/src/trust/reverification.service.ts:99-132 | the two updates of a turn change only that citizen's active bindings, and of those only the time or the status |
| Reverify.OtherTurn | apps/broker/src/trust/reverification.service.ts:99-139 | a turn changes nothing of another citizen's that other handlers leave alone |
| Reverify.SweepSettles | apps/broker/src/trust/reverification.service.ts:172-190 | after a sweep every citizen handled, and left alone by other handlers, is refreshed if SDID said valid, shut out if it said invalid, and as it was if SDID gave no answer or was not asked |
| KeyRotation.Custody.Reload | apps/broker/src/keys/postgres-dev.custody.ts:275-306 | the cache holds exactly the rows with their key material; the signing key is that of the first active row, and there is none exactly if no row is active |
| KeyRotation.ReloadFillsCache | apps/broker/src/keys/postgres-dev.custody.ts:275-306 | what a reload makes of the table's rows is the cache that the runs of replicas fill |
| KeyRotation.ReloadedReplicaSigns | apps/broker/src/keys/postgres-dev.custody.ts:275-306 | while exactly one key is active, along every run, whichever replica reloads the rows in whatever order signs with that key |
| KeyRotation.OneActiveForeverIff | apps/broker/src/keys/postgres-dev.custody.ts:207-264 | every run of rotations, reloads, boots and signings by any replicas keeps exactly one active key if and only if there is one now, no replica is in the middle of a first boot, and the open rotation has retired whatever is active |
| KeyRotation.AlwaysOneActive | apps/broker/src/keys/postgres-dev.custody.ts:207-240 | that condition is itself kept by every run |
| KeyRotation.RowsStay | apps/broker/src/keys/postgres-dev.custody.ts:207-240 | no row is ever removed and no key material changes |
| KeyRotation.SignedKeysStayPublished | apps/broker/src/keys/postgres-dev.custody.ts:133-164 | a key any replica signed with by some step is published, with the same material, by every replica that fills its cache at that step or later: by a reload, at boot, or on a signing miss |
| KeyRotation.FirstBootRace | apps/broker/src/keys/postgres-dev.custody.ts:254-264 | two replicas booting on an empty table leave two active keys |
| KeyRotation.RotationRestoresOne | apps/broker/src/keys/postgres-dev.custody.ts:207-240 | one undisturbed rotation leaves exactly one active key, whatever was there |
| KeyRotation.RollbackUndoes | apps/broker/src/keys/postgres-dev.custody.ts:207-240 | a rotation that fails after any of its steps leaves everything as it was, the lock free |
| KeyRotation.SignsKnownKeys | apps/broker/src/keys/postgres-dev.custody.ts:133-164 | a replica signs with any key of the table, cached or not, with that key's material, and with no other |

## Left out

- Guards before a transaction is created (client authentication, scopes, the citizen's active binding, rate limits): a transaction may appear with any columns, so the theorems hold for more runs than the code allows.
- Times to live of Redis challenges and stashes, and of session tokens: a challenge or stash may vanish at any step, a session lasts; both only add runs.
- Revocation of devices: any binding may be revoked at any step. The sweep of all citizens appears in the protocol as its writes, for any citizen at any time. "Revoked is terminal" is false of the code, because activation updates unconditionally; what holds is ProtocolSuspension.RevokedNeedsActivation.
- The reply and audit row of a decision that lost its compare-and-set: the device is told a decision that changed no row; theorems are about rows.
- The five-device cap and "suspended implies no active binding" under interleaving: the code checks and then writes.
- Attestation nonces: a second challenge store of the same kind in its own key space.
- Attestation verdicts, assurance derivation and AL3 step-up policy: the assurance of a binding is a parameter.
- The deny list of field names and its normalization: redaction is proved for every deny list.
- Redaction of shared or circular references: values are trees; the own property named `__proto__`, and Map keys that collide as strings, are outside the model.
- The order JavaScript gives integer-like keys of the objects redaction builds: fields stand in the order they were written.
- Redact.RedactionIsClean: assumes arrays and binary values have fewer than 10^15 elements and that a date's ISO form holds no sixteen-digit run, as every engine guarantees.
- CBOR numbers: integers are mathematical; which of them arrive as a number and which as a bigint is modelled only where map keys depend on it.
- OidText.DottedTextsAgreeIff: assumes of `String` on a double what ECMA-262 gives: safe integers in full, distinct doubles apart, and a point only in a mantissa before an exponent.
- `derInteger`, `derBoolean` and the other typed accessors, and `derFindContext`: single checks over a parsed node.
- Ecdsa.DerEcdsaToJose: says which inputs are refused, not with which message.
- Json: functions, symbols, bigints, dates and values with a `toJSON` method are not values of the model; a top-level undefined is the empty text.
- AuditChain.RecomputedText: assumes text, timestamp and UUID columns come back as they were written.
- Usage: the audit append itself is one step that commits or fails; the health and lifecycle rows are not modelled.
- ProtocolProgress: shows that the continuation exists, not that the parties take it; failures and refusals along the way are the safety theorems' subject.
- Breaker: the threshold and resetMs are at least 1. The validity of a response and the jittered delay are part of the outcome and the time of a trial; a configuration error during a half-open probe leaves the probe flag set, which the recovery claims exclude.
- KeyRotation: kids are fresh; the cryptography of signing is absent.
- Metrics, anomaly counters, push transports, HTTP framing, HTML, configuration, mobile screens and command-line tools: no deep invariant.
