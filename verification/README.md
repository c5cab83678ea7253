# Verified model of monocles chat for desktop

This project models the protocol logic of the client in Dafny and proves properties of it. It covers
five areas.

- **The key life cycle of PQ-OMEMO2.** `KemHistory` and `KemSafety` are the table of KEM pre-keys and replay tuples as a
  state machine with its history; `OwnKeys`, `Maintenance` and `Publishing` are the store and the
  maintenance pass that keeps the published bundle usable; `PeerHistory`, `PeerSafety` and `PeerStore`
  are what is known about peers, with trust and pinned post-quantum identities. The store classes keep
  the run that led to their state in ghost fields, so that what is proved of runs holds of them. Ids of
  deleted rows come back, so key material has a generation number that does not. `BundleXml` and
  `PublishedBundle` follow a bundle to its readers.
- **Payload sealing.** `Kmac` is the hand-written framing of NIST SP 800-185, `Seal` the context binding,
  the key commitment, and opening. The sponge is not taken to be injective: the main result shows a
  collision if two keys open one payload.
- **Printers and parsers.** `Uri`, `UriRoundTrip` and `UriForms` for
  verification codes; `XmlText`, `Sce`,
  `SceCanonical` and `SceRoundTrip` for encrypted envelopes; `Sdp` and the modules named after it for SDP and Jingle. Each
  loop of the code is a method proved against a recursive specification, and the theorems are about the
  specification.
- **Archive paging and the message table.** `MamArchive` and `MamRuns` for paging, one operation at a
  time and interleaved; `Messages` and `RecentMessages` for deduplication and for the rank of a message.
- **The debounced refresh.** `Refresh` is the protocol of the two flags as a state machine over single
  reads and writes.

Libraries are parameters with laws: a datatype or a function value stands for what the library computes
(signatures, authenticated encryption, the sponge, base64, lower-casing, numeric character references,
the conversion of bytes to text), and a predicate states the facts a theorem needs (`Lawful`, `LossyLaw`,
`LowerLaw`, `CharRefLaw`, `PadLaw`). Clocks and random values are arguments; one maintenance pass reads
the clock once.

Where the code and its documentation differ, the model follows the code:

- An outbound session replaces a pinned post-quantum identity when the *device row* is verified, whether
  or not that row holds the key of the bundle (`PeerSafety.PinOfAnUnverifiedKeyMayChange`,
  `PeerSafety.RepinKeepsTheVerdictIff`).
- Stanza ids are not unique (`Messages.StanzaIdsCanRepeat`).
- Translating an SDP twice is not always translating it once (`SdpNormalisation.TwiceIsOnceIff`).
- Attribute values inside an envelope's content are meant to survive a second reading; one with a tab or
  line end of its own does not (crates/mxc-omemo/src/sce.rs:212-226, `SceCanonical.KeptContentIsStableIff`,
  `SceCanonical.LineFeedInAnAttribute`).
- Jumping to a message is meant to load it; it does so unless more than forty newer ones come in between
  the two queries (`RecentMessages.JumpTargetIsLoadedIff`).
- Archive loads and catch-ups run beside each other without any order (crates/mxc-proto/src/client.rs:239-240
  and 358-359). The stored ids have no gap between them when operations start
  by three rules, which the code does not enforce. Each is needed: a concrete run that breaks it alone leaves
  a gap (`MamRuns.NothingBetweenIsMissing`, `MamRuns.ExplicitIdDuringACatchUp`, `MamRuns.TwoFirstLoadsAtOnce`,
  `MamRuns.CatchUpDuringAnExplicitId`).

## Model

| member | source | states |
|---|---|---|
| `KemSafety.NoReplayInAnyRun` | crates/mxc-omemo/src/store.rs:244-307 | In every run of stores, deletions, prunings, resets, handshakes and marks without a load, no key material is accepted twice, except a last-resort key for a different (KEM id, signed pre-key id, base key) initiation. |
| `KemSafety.RunKeepsGuarded` | crates/mxc-store/src/omemo.rs:611-676 | The invariant behind it: as long as its key generation is live, every accepted handshake is on record, as the used flag of a one-time key or as a replay tuple, although pruning deletes tuples. |
| `KemSafety.RefusedOnlyIfAcceptedBefore` | crates/mxc-omemo/src/store.rs:244-307 | The other direction, in a run that stores under free ids and marks what it has loaded: a readable live key refuses an initiation only because one was accepted before, by this very generation for a one-time key and with the same three values for a last-resort key. |
| `KemSafety.PruningOrphansChangesNoVerdict` | crates/mxc-store/src/omemo.rs:644-654 | Deleting the replay tuples whose key row is gone changes no verdict on any initiation. |
| `KemSafety.SameTupleMayRecurUnderAReusedId` | crates/mxc-store/src/omemo.rs:678-687 | A concrete run in which the same three values are accepted twice: the key was deleted, its tuple pruned, and its id reused; the two acceptances belong to different generations. |
| `OwnKeys.NextIdIsFreeIff` | crates/mxc-store/src/omemo.rs:435-443 | The largest live id plus one is free among the live rows exactly when the ids have not run out, or 0 is free. |
| `OwnKeys.Store.GetKyberPreKey` | crates/mxc-omemo/src/store.rs:244-260 | Loading a KEM pre-key succeeds exactly when its row is there, readable, and not a consumed one-time key. |
| `OwnKeys.Store.MarkKyberPreKeyUsed` | crates/mxc-omemo/src/store.rs:267-307 | For any id: fails exactly for a last-resort row with a repeated tuple, without a change; otherwise a last-resort row records the tuple, another row is flagged, a missing one is left missing. After a load this is the handshake step of the run. |
| `OwnKeys.Store.AcceptHandshake` | crates/mxc-omemo/src/store.rs:244-307 | Loading and marking together accept exactly when the state machine does and are one step of the run; a refusal changes nothing, and no history of the object holds a replay. |
| `OwnKeys.Store.NeverReplayed` | crates/mxc-omemo/src/store.rs:267-307 | The accepted handshakes of every store object satisfy the no-replay property, whatever methods were called on it. |
| `OwnKeys.Store.StoreKyberPreKey` | crates/mxc-store/src/omemo.rs:499-517 | An upsert of key material under an id: the used flag of an existing row stays, and the row holds the next generation, by the step of the run that it is. |
| `OwnKeys.Store.DeleteKyberPreKey` | crates/mxc-store/src/omemo.rs:578-588 | Exactly one row goes; the accepted handshakes stay, and the run gets just this step. |
| `OwnKeys.Store.RemovePreKey` | crates/mxc-omemo/src/store.rs:207-209 | Exactly one EC row goes. |
| `OwnKeys.Store.PruneOrphanedReplayRecords` | crates/mxc-store/src/omemo.rs:644-654 | Exactly the tuples whose key row is live stay, and the run gets just this step. |
| `OwnKeys.Store.ResetOwnState` | crates/mxc-store/src/omemo.rs:193-210 | Every own-key table is emptied; the history of accepted handshakes goes on and is still free of replays. |
| `Maintenance.PurgeNonMlKemPreKeys` | crates/mxc-omemo/src/session.rs:507-528 | Exactly the rows stay whose record is readable and whose key starts with the byte 10, as FIPS 203 keys do. |
| `Maintenance.ReplenishEc` | crates/mxc-omemo/src/session.rs:636-663 | Below the low-water mark, the EC table grows to the target, under the ids after the largest one, all free before, each key from a draw of its own; at the mark or above nothing changes, and no row does ever. |
| `Maintenance.ReplenishKem` | crates/mxc-omemo/src/session.rs:636-663 | The same for one-time KEM keys: the unused one-time rows are what is counted and what reaches the target, the ids follow the largest KEM id of any kind, and each key is signed as a whole. |
| `Maintenance.RotateLastResortIfDue` | crates/mxc-omemo/src/session.rs:548-564 | Without a current last-resort key nothing happens; otherwise exactly a key older than 30 days is followed by a new one under a free id, made and signed here, which becomes the current one, and nothing else changes. |
| `Maintenance.RotateSignedPreKeyIfDue` | crates/mxc-omemo/src/session.rs:572-600 | The newest signed pre-key is kept up to 30 days and then, and only then, followed by a new one under the next id, whose signature is over the serialized key with its prefix; an unreadable one is an error, and an empty table gives the fallback id. |
| `Maintenance.PruneStaleKyberPreKeys` | crates/mxc-omemo/src/session.rs:605-632 | Exactly the rows go that are past 90 days since their creation and are a consumed one-time key or a superseded last-resort key; then exactly the orphaned replay tuples go. |
| `Maintenance.GenerateKemRecord` | crates/mxc-omemo/src/session.rs:548-564 | A generated KEM record has the ML-KEM-1024 tag and the time of the pass, and its key verifies under our identity key. |
| `Publishing.SignBundlePq` | crates/mxc-omemo/src/session.rs:344-369 | The post-quantum signature is over the transcript of both identities, the signed pre-key and the digest of all KEM keys in their order. |
| `Publishing.ListEcPreKeys` | crates/mxc-omemo/src/session.rs:667-726 | All EC rows, in the order of their ids, as raw keys; an unreadable row is an error. |
| `Publishing.ListKemPreKeys` | crates/mxc-omemo/src/session.rs:667-726 | Exactly the unused one-time rows, in the order of their ids. |
| `Publishing.RebuildBundle` | crates/mxc-omemo/src/session.rs:667-726 | Succeeds exactly when a readable last-resort key, the signed pre-key and every listed row are there; the bundle then advertises exactly the current rows, signed both ways. |
| `Publishing.GenerateAndStorePreKeys` | crates/mxc-omemo/src/session.rs:374-461 | The first bundle lists exactly the rows it stored, under the ids that were asked for, each from draws of its own; signed pre-key and KEM keys are signed as a whole, the bundle is signed by the post-quantum identity, and other rows stay. |
| `Publishing.FirstBundleIsComplete` | crates/mxc-omemo/src/session.rs:374-461 | On an empty store these are all rows there are, and the last-resort row is the current one. |
| `Publishing.PoolGrows` | crates/mxc-omemo/src/session.rs:636-663 | With the low-water mark at most the target, replenishing leaves at least the low-water mark of unused one-time keys and the same last-resort keys. |
| `Publishing.PruningSpares` | crates/mxc-omemo/src/session.rs:605-632 | Pruning never deletes the current last-resort key, an unused one-time key, or any key stamped within 90 days. |
| `Publishing.AdvertisedKemIdsAreDistinct` | crates/mxc-omemo/src/session.rs:667-726 | The advertised one-time KEM ids are distinct, differ from the last-resort id, and are as many as there are unused rows. |
| `Publishing.RenewPools` | crates/mxc-omemo/src/session.rs:466-493 | Purge, replenish and last-resort rotation together leave only ML-KEM-1024 rows, keep a last-resort key exactly if one survived the purge, and accept or forget no handshake. |
| `Publishing.UpkeepBundle` | crates/mxc-omemo/src/session.rs:466-493 | One pass over a used store gives a bundle exactly when an ML-KEM-1024 last-resort row, a readable newest signed pre-key and readable EC rows are there; it then has at least the low-water mark of EC and KEM one-time keys, exactly the unused ML-KEM rows, and signed keys at most 30 days old. EC rows, signed pre-keys, and ML-KEM rows that are unused or at most 90 days old keep their keys; no other used or superseded row is left, nor a replay tuple without a row. Rows that verify under our identity key lead to rows and a bundle that do. |
| `Publishing.MaintainBundle` | crates/mxc-omemo/src/session.rs:466-493 | The whole entry point, first bundle or upkeep, with its exact success condition; no pass accepts, forgets or repeats a handshake, and from rows that verify it publishes keys that verify. |
| `OmemoTypes.RawThenDjb` | crates/mxc-omemo/src/session.rs:1075-1094 | Stripping the type prefix of a Curve25519 key and putting it back gives the key, and a key that has the prefix is read as it is. |
| `PublishedBundle.RebuiltIsPublishable` | crates/mxc-omemo/src/session.rs:667-726 | Every rebuilt bundle has what the wire needs: no empty EC key and only ML-KEM-1024 keys. |
| `PublishedBundle.FirstIsPublishable` | crates/mxc-omemo/src/session.rs:374-461 | So has the first bundle. |
| `PublishedBundle.PeersReadAndVerifyIt` | crates/mxc-omemo/src/session.rs:884-907 | A published bundle survives printing and parsing unchanged, and the transcript recomputed from what was parsed is the signed one and verifies. |
| `PublishedBundle.PeersPinIt` | crates/mxc-omemo/src/session.rs:864-928 | Hence a peer that knows our identity key pins our post-quantum key from it unless a pin is there, and one that knows another key pins nothing. |
| `Publishing.AdvertisedKeysVerify` | crates/mxc-omemo/src/session.rs:667-726 | In a bundle of rows that verify, the signed pre-key and every KEM key verify under our identity key, as libsignal checks them. |
| `PublishedBundle.PeersCanEstablish` | crates/mxc-omemo/src/session.rs:733-845 | With the keys that maintenance makes, every peer can build a session from the printed and parsed bundle, exactly unless it has marked our key as not to be trusted or pinned another post-quantum key without having verified our device. |
| `BundleXml.ToXml` | crates/mxc-omemo/src/bundle.rs:77-111 | The printed elements of a bundle, in order, the post-quantum identity only when it is complete. |
| `BundleXml.FromXml` | crates/mxc-omemo/src/bundle.rs:114-213 | The parsing loop with its current element, id and signature gathers what the event-by-event specification does, and checks it in the order the errors are reported. |
| `BundleXml.PrintedBundleParses` | crates/mxc-omemo/src/bundle.rs:77-213 | For every bundle: parsing the printed form gives the bundle without empty EC keys and without one-time keys that are not ML-KEM-1024, exactly when identity key, signed pre-key, ML-KEM signed key and post-quantum identity are there; otherwise the first check that fails names the error. |
| `BundleXml.KeptEntirely` | crates/mxc-omemo/src/bundle.rs:77-213 | A bundle without empty EC keys and with ML-KEM-1024 keys only is kept entirely. |
| `BundleXml.EveryParsedBundleIsComplete` | crates/mxc-omemo/src/bundle.rs:114-213 | Whatever a peer publishes, a bundle that parses has both classical keys and the post-quantum identity, and every KEM key in it starts with the byte 10; malformed XML is refused. |
| `BundleXml.IdsAreOptional` | crates/mxc-omemo/src/bundle.rs:145-190 | A one-time key without an id is taken with id 0, and text in an element of another name is ignored. |
| `BundleXml.PrintedByName` | crates/mxc-omemo/src/bundle.rs:77-111 | The printed form of a bundle with one key of each kind, element by element with its names and attributes. |
| `BundleXml.PrintedWithoutIdentity` | crates/mxc-omemo/src/bundle.rs:101-106 | Without a complete post-quantum identity, none of its elements is printed. |
| `BundleXml.DroppingAKeyChangesTheBindingInput` | crates/mxc-omemo/src/session.rs:344-369 | A bundle that lost a one-time KEM key on the way has another input to its KEM binding than the one that was signed. |
| `PeerSafety.EveryVerdictHasAnOrigin` | crates/mxc-store/src/omemo.rs:237-272 | In every run, the trust of a row is that of the last decision on the very key it holds, or, without one, undecided for a key that replaced another and the auto-trust setting for a new device. |
| `PeerSafety.VerifiedMeansThisKeyWasVerified` | crates/mxc-store/src/omemo.rs:325-340 | A verified row holds exactly the key that was there when the decision was made, and has held it ever since. |
| `PeerSafety.ReplacedKeyStaysUndecided` | crates/mxc-omemo/src/store.rs:127-150 | A key that replaced another stays undecided until a later decision, however often it is saved or replaced again. |
| `PeerSafety.BlockedKeyIsRefused` | crates/mxc-omemo/src/store.rs:152-178 | A key that the user marked as not to be trusted gets no outbound session, and the attempt changes nothing. |
| `PeerSafety.BlockLasts` | crates/mxc-omemo/src/store.rs:152-178 | In every run, no outbound session toward such a key is built until another decision, another key in its row, or a reset, whatever else happens in between. |
| `PeerSafety.EstablishedIff` | crates/mxc-omemo/src/session.rs:733-845 | Exactly when an outbound session is built: every part is there and decodes, the three signatures hold (the KEM one of the first one-time key whenever there is one), the key is not blocked, and the pin is absent, equal, or the device verified. |
| `PeerSafety.PinStep` | crates/mxc-omemo/src/session.rs:733-845 | A single step changes a pin only in an outbound session toward a verified device row, writes one only from a verified transcript, and removes one only in a reset. |
| `PeerSafety.PinChangesOnlyWhenVerified` | crates/mxc-omemo/src/session.rs:733-845 | Between resets a pin survives, and if its value changed, one of the steps was an outbound session toward a device row that was verified at that moment, and it wrote just the new value from a verified transcript for this JID and classical key. |
| `PeerSafety.EveryPinWasVerified` | crates/mxc-omemo/src/session.rs:733-928 | Every pin of a reachable state came from a bundle whose transcript signature verified, for exactly this JID and classical key. |
| `PeerSafety.PinsOfOthersAreUntouched` | crates/mxc-store/src/omemo.rs:144-161 | A step for one JID leaves every other JID's pins as they are. |
| `PeerSafety.PinsOfTwoKeysAreDistinct` | crates/mxc-store/src/omemo.rs:123-138 | Two classical keys of one JID have different pins. |
| `PeerSafety.ReconcileFillsOnly` | crates/mxc-omemo/src/session.rs:864-928 | Reconciling succeeds exactly for a complete, readable bundle with the known identity key and a verified transcript, and then never touches a pin that is there. |
| `PeerSafety.RepinKeepsTheVerdictIff` | crates/mxc-omemo/src/session.rs:733-845 | When an outbound session replaces a pin, the verdict on the device row survives exactly if the row held the key being pinned. |
| `PeerSafety.PinOfAnUnverifiedKeyMayChange` | crates/mxc-omemo/src/session.rs:733-845 | The gate looks at the device row only: a run of four commands from an empty store after which the pin of a key that nobody verified is replaced. |
| `PeerStore.Store.SaveIdentity` | crates/mxc-omemo/src/store.rs:127-150 | Reports a replacement exactly when another key was there, and a replaced key has no verdict. |
| `PeerStore.Store.SetTrust` | crates/mxc-store/src/omemo.rs:325-340 | Changes the trust of one row, if it is there, and of no other. |
| `PeerStore.Store.ResetPeerState` | crates/mxc-store/src/omemo.rs:168-189 | Identities and pins are gone. |
| `PeerStore.Store.ProcessPreKeyBundle` | crates/mxc-omemo/src/session.rs:790-845 | The session is built exactly if the identity is not blocked, the three signatures hold and the agreement succeeds; then the identity is filed, otherwise nothing changes. |
| `PeerStore.Store.EstablishSession` | crates/mxc-omemo/src/session.rs:733-845 | A failure changes nothing; a success, which a blocked key never gets, files the identity and pins the post-quantum key of a verified bundle, replacing another pin only if the device row was verified at the call. |
| `PeerStore.Store.ReconcilePqPin` | crates/mxc-omemo/src/session.rs:864-928 | Writes a pin exactly when it reports so, and never over one. |
| `PeerStore.Store.VerifiedKeysWereVerified` | crates/mxc-store/src/omemo.rs:325-340 | The run-level result on verified keys, for every store object. |
| `Hex.HexIsInjective` | crates/mxc-store/src/omemo.rs:123-138 | Two keys with the same hex form are the same key. |
| `Kmac.LeftEncode` | crates/mxc-omemo/src/session.rs:137-143 | Appends the left encoding of section 2.3.1 of NIST SP 800-185: the shortest big-endian form after its length. |
| `Kmac.RightEncode` | crates/mxc-omemo/src/session.rs:146-151 | Appends the right encoding: the shortest big-endian form before its length. |
| `Kmac.EncodeString` | crates/mxc-omemo/src/session.rs:154-157 | Appends the bit length and the string (section 2.3.2). |
| `Kmac.Bytepad` | crates/mxc-omemo/src/session.rs:154-173 | The encoded width, the string, and then zero bytes only, up to the least multiple of the width. |
| `Kmac.Kmac256` | crates/mxc-omemo/src/session.rs:188-213 | The sponge is applied to exactly the framed input of section 4. |
| `Kmac.ShortestDecodes` | crates/mxc-omemo/src/session.rs:137-151 | The shortest form is a faithful number: it reads back as the value. |
| `Kmac.RoundUpIsLeast` | crates/mxc-omemo/src/session.rs:164-173 | The padded length is the least multiple of the width that holds the string. |
| `Kmac.LeftEncodingIsPrefixFree` | crates/mxc-omemo/src/session.rs:137-143 | Two strings that start with left encodings and are equal start with the same number. |
| `Kmac.RightEncodingIsSuffixFree` | crates/mxc-omemo/src/session.rs:146-151 | Two strings that end in right encodings and are equal end in the same number. |
| `Kmac.PaddedKeyIsPrefixFree` | crates/mxc-omemo/src/session.rs:164-213 | Where the padded key block ends can be read from its beginning, so the key and what follows are determined. |
| `Kmac.KmacInputIsInjective` | crates/mxc-omemo/src/session.rs:188-213 | Equal framed inputs have equal keys, data and output lengths, for all lengths whose bit count fits 64 bits. |
| `Kmac.KmacInputIsAFrame` | crates/mxc-omemo/src/session.rs:175-211 | What the sponge gets reads back, by the rules of sections 2.3 and 4 of the standard, as the rate, the key, the data and the output length, with nothing but zero bytes in between. |
| `Kmac.FrameOfA32ByteKey` | crates/mxc-omemo/src/session.rs:175-228 | For a 32-byte key and a 64-byte output, every byte of the frame around key and data. |
| `Seal.CtEq` | crates/mxc-omemo/src/session.rs:231-240 | The comparison that looks at every byte is equality. |
| `Seal.XorDigits` | crates/mxc-omemo/src/session.rs:231-241 | The two operations of the comparison, digit by digit: the one is set where the digits differ, the other where one of them is. |
| `Seal.ContextBindingIsInjective` | crates/mxc-omemo/src/session.rs:99-115 | For names without NUL, two context bindings are equal exactly when bare sender, bare recipient (a missing one being empty) and device id are. |
| `Seal.ContextBindingReads` | crates/mxc-omemo/src/session.rs:91-116 | A binding begins with OMEMO2 and a NUL, ends in the device id in four big-endian bytes, and has the two bare names with a NUL after each in between. |
| `Seal.NulInANameIsAmbiguous` | crates/mxc-omemo/src/session.rs:99-115 | The condition is needed: two different pairs of names with a NUL have the same binding. |
| `Seal.OpeningASealedPayload` | crates/mxc-omemo/src/session.rs:119-273 | Opening with the sender's key, an equal context and the published commitment gives back the message; any other commitment, or none, gives an error. |
| `Seal.CommitmentIsKeyed` | crates/mxc-omemo/src/session.rs:213-228 | The commitment is 64 bytes, from a frame of the message key and the context, under its own customization. |
| `Seal.PayloadKeysAreCut` | crates/mxc-omemo/src/session.rs:274-292 | Key and nonce are 32 and 12 bytes of one output, from a frame of the message key and the context, under their own customization. |
| `Seal.DerivationDependsOnContext` | crates/mxc-omemo/src/session.rs:274-292 | Two derivations feed the sponge the same bytes exactly when key, bare names and device agree. |
| `Seal.SealedUnderItsContext` | crates/mxc-omemo/src/session.rs:119-136 | A sealed payload is 16 bytes longer than the message and decrypts to it under the derived key and nonce, with the context as associated data. |
| `Seal.OpensExactlyWhatWasSealed` | crates/mxc-omemo/src/session.rs:119-272 | With the commitment that belongs to key and context, a payload opens as a message exactly if it is what sealing this message gives; with another, or none, nothing opens. |
| `Seal.OnePayloadOneKey` | crates/mxc-omemo/src/session.rs:188-273 | If one payload and one commitment open under two keys and contexts, these and the plaintexts are equal, or the two framed inputs are an explicit collision of the sponge. |
| `Uri.EncodeJid` | crates/mxc-proto/src/uri.rs:194-208 | The escaped form of a JID, byte by byte. |
| `Uri.PercentDecode` | crates/mxc-proto/src/uri.rs:210-226 | The decoding loop gives what the recursive specification does, including the slice that would split a character. |
| `Uri.DecodingUndoesEncoding` | crates/mxc-proto/src/uri.rs:194-226 | Percent-decoding an escaped JID gives the JID. |
| `Uri.VerificationUri` | crates/mxc-proto/src/uri.rs:75-88 | The printing loop gives the scheme, the escaped JID, and the parameters in order. |
| `Uri.Finish` | crates/mxc-proto/src/uri.rs:132-165 | The gathering loop with its seen keys, skipped pairs and cap of 64 gives what the pair-by-pair specification does. |
| `UriRoundTrip.KeysAreInjective` | crates/mxc-proto/src/uri.rs:75-88 | Two printed parameter names are equal exactly when stack and device id are. |
| `UriRoundTrip.PrintedUriIsRead` | crates/mxc-proto/src/uri.rs:75-165 | A printed code is read back as the JID and the first entry of each parameter, up to 64. |
| `UriRoundTrip.EveryFoundUriIsWellFormed` | crates/mxc-proto/src/uri.rs:90-190 | Whatever text is scanned, an accepted code names a JID with an '@' and no outer white space, and at most 64 entries, each with a device id and the lower-case hex of a 32-byte key. |
| `UriRoundTrip.RoundTripIff` | crates/mxc-proto/src/uri.rs:75-165 | For every JID and every list: the printed code is read back exactly if and only if the JID has an '@' and no outer white space and the entries are well-formed, at most 64, and no two share stack and device id. |
| `UriRoundTrip.IdentityKeysMakeEntries` | crates/mxc-proto/src/uri.rs:48-55 | Entries made from identity keys are well-formed and tell any two keys apart. |
| `UriForms.InviteLinkIsRead` | crates/mxc-proto/src/uri.rs:90-125 | An invite link is read as the JID in its path and the first entry of each parameter, just as the code with the same JID and entries. |
| `UriForms.OldInviteLinkIsRead` | crates/mxc-proto/src/uri.rs:115-123 | The older form with user and domain in two segments is read as their JID. |
| `UriForms.EmptySegmentsAreSkipped` | crates/mxc-proto/src/uri.rs:115-123 | Slashes that follow each other in a path count as one. |
| `UriForms.AsciiNeverPanics` | crates/mxc-proto/src/uri.rs:90-226 | No ASCII text makes the parser panic. |
| `UriForms.GroupingIsIgnored` | crates/mxc-proto/src/uri.rs:173-190 | Spaces that group the digits of a fingerprint make no difference. |
| `UriForms.CaseIsIgnored` | crates/mxc-proto/src/uri.rs:173-190 | Nor does their case. |
| `UriForms.KeyLengths` | crates/mxc-proto/src/uri.rs:173-190 | A fingerprint has 64 digits, or 66 that begin with 05; nothing else is one. |
| `UriForms.EscapesInEitherCase` | crates/mxc-proto/src/uri.rs:210-226 | A percent escape is read with its digits in either case. |
| `UriForms.ReservedIsEscaped` | crates/mxc-proto/src/uri.rs:192-208 | An escaped JID has no question mark, semicolon, number sign or space, and without those and the percent sign it stays as it is. |
| `UriForms.LowerCase` | crates/mxc-proto/src/uri.rs:90-96 | Lower-casing moves exactly the 26 capital letters of ASCII. |
| `UriForms.SpaceIsWhiteSpace` | crates/mxc-proto/src/uri.rs:90-94 | What is trimmed, byte by byte, is exactly the UTF-8 form of a white-space character. |
| `UriForms.ContinuationBytes` | crates/mxc-proto/src/uri.rs:210-226 | The bytes that no slice may begin at are exactly those of a character after its first. |
| `UriForms.EveryContinuationByte` | crates/mxc-proto/src/uri.rs:210-226 | They are the 64 values from 80 to BF in hexadecimal. |
| `UriForms.ParameterNames` | crates/mxc-proto/src/uri.rs:75-88 | A parameter is named after the stack and the device id in decimal. |
| `Decimal.PrintedI64` | crates/mxc-proto/src/uri.rs:75-165 | A printed device id parses back to itself. |
| `Decimal.U32Forms` | crates/mxc-omemo/src/bundle.rs:215-230 | A number of a key may have a plus sign and has to fit 32 bits. |
| `Decimal.I64Forms` | crates/mxc-proto/src/uri.rs:148-156 | A device id may have a sign and has to fit 64 bits. |
| `Text.SplitUndoesJoin` | crates/mxc-proto/src/uri.rs:132-165 | Splitting at a separator undoes joining with it when no part contains it. |
| `XmlText.ResolvingUndoesEscaping` | crates/mxc-omemo/src/sce.rs:251-262 | Resolving the references of an escaped text gives the text. |
| `XmlText.PredefinedEntities` | crates/mxc-omemo/src/sce.rs:249-262 | The five entities as they are written and read; a reference to another name makes a text unresolvable. |
| `XmlText.EscapedAttribute` | crates/mxc-omemo/src/sce.rs:196-207 | An attribute value that was written escaped is read back with its tabs and line ends as spaces, and otherwise as it was. |
| `XmlText.RewrittenAttribute` | crates/mxc-omemo/src/sce.rs:231-247 | A rewritten attribute has no raw apostrophe, and a second reader sees the same value exactly when the value is unresolvable or holds no tab or line end. |
| `Sce.AttrsStr` | crates/mxc-omemo/src/sce.rs:231-247 | The loop writes every attribute, in order, in its rewritten form. |
| `Sce.FromXml` | crates/mxc-omemo/src/sce.rs:78-155 | The event loop with its content flag and depth counter gives what the event-by-event specification does. |
| `Sce.EveryNestedStreamIsRead` | crates/mxc-omemo/src/sce.rs:78-155 | For every well-nested stream: sender, recipient and time are the last childless elements of that name outside every content element, and the content is exactly the printed forest inside, elements named content included. |
| `Sce.ContentCannotMoveTheAffixes` | crates/mxc-omemo/src/sce.rs:113-133 | Two streams that differ only in what their content elements hold, at any depth, are read with the same sender, recipient and time. |
| `Sce.WhereTheAffixesComeFrom` | crates/mxc-omemo/src/sce.rs:113-133 | Sender and recipient are the jid of the last from and to element outside content, the time is the last stamp of a time element that is not empty. |
| `Sce.AttributeByName` | crates/mxc-omemo/src/sce.rs:196-207 | An attribute is found by its name, the first of that name; a missing one is empty, one that cannot be decoded is taken as it stands. |
| `Sce.ToXml` | crates/mxc-omemo/src/sce.rs:56-75 | The written envelope, with exactly as much padding as reaches the next bucket. |
| `Sce.WrittenReads` | crates/mxc-omemo/src/sce.rs:56-75 | The written envelope, tag by tag. |
| `Sce.LengthTellsTheSizeClassOnly` | crates/mxc-omemo/src/sce.rs:51-75 | The length is a multiple of 256, and two envelopes have the same length exactly when their unpadded lengths are in the same bucket. |
| `SceRoundTrip.WrittenIsTheTree` | crates/mxc-omemo/src/sce.rs:56-75 | The written text is the text of the envelope as a tree. |
| `SceCanonical.KeptAsSentIff` | crates/mxc-omemo/src/sce.rs:78-155 | The reader keeps content as the text that was sent exactly when that is canonical: no comment, CDATA section or the like, one space before every attribute and no other white space in a tag, and values in apostrophes that rewriting leaves as they are. |
| `SceCanonical.KeptContentIsStableIff` | crates/mxc-omemo/src/sce.rs:209-247 | The kept content is the text of a tree with the same elements and texts, and reading it again changes nothing if and only if no decoded attribute value holds a tab or line end. |
| `SceCanonical.LineFeedInAnAttribute` | crates/mxc-omemo/src/sce.rs:209-247 | A concrete value that does not survive: a line feed written as a numeric reference is kept as a line feed and read as a space the next time. |
| `SceRoundTrip.RoundTripIff` | crates/mxc-omemo/src/sce.rs:56-155 | An envelope that is written is read back as itself if and only if no affix holds a tab or line end, the time is not empty, and the content is canonical. |
| `SceRoundTrip.BodyOfNew` | crates/mxc-omemo/src/sce.rs:31-38 | The body of a new envelope is the text it was made from, for any further content. |
| `SceRoundTrip.BodySurvives` | crates/mxc-omemo/src/sce.rs:31-163 | For every body and any further content, the written message is read back with exactly this body, however its text is divided into events. |
| `Sdp.ParseMedia` | crates/mxc-proto/src/xeps/jingle_sdp.rs:40-94 | The line loop that fills the last section gives what the line-by-line specification does. |
| `Sdp.TakeAttribute` | crates/mxc-proto/src/xeps/jingle_sdp.rs:53-91 | One attribute line updates exactly the field it is for; the first ssrc and cname win. |
| `Sdp.CandidateToJingle` | crates/mxc-proto/src/xeps/jingle_sdp.rs:267-299 | The loop that fills the map of extra words: fewer than six words give nothing; otherwise the six leading attributes are the six leading words, and type, related address, related port and generation are what follows the last such name at an even place. |
| `Sdp.CandidateIsRead` | crates/mxc-proto/src/xeps/jingle_sdp.rs:267-299 | The same of the specification, for every candidate of every section. |
| `Sdp.ContentsToSdp` | crates/mxc-proto/src/xeps/jingle_sdp.rs:177-264 | The writer's nested loops give the header and every complete content's section, with the shared credentials in each. |
| `SdpParsed.ParsedIsWellFormed` | crates/mxc-proto/src/xeps/jingle_sdp.rs:40-94 | Everything parsed lies on one line, ids hold no space, and values end in something to see. |
| `SdpFields.OneSection` | crates/mxc-proto/src/xeps/jingle_sdp.rs:40-94 | A media line begins a section, and the lines up to the next one belong to it and to nothing else. |
| `SdpFields.SectionSays` | crates/mxc-proto/src/xeps/jingle_sdp.rs:21-94 | Every field of a section by its lines: of single-valued attributes the last counts, of source and canonical name the first, entries and candidates stay in order, and what no line says is empty. |
| `SdpFields.ContentSays` | crates/mxc-proto/src/xeps/jingle_sdp.rs:96-163 | A content is named after the mid of its section, or the kind without one, and has a source only with a canonical name, a fingerprint only if the section has one. |
| `SdpFields.BundleIsTheFirst` | crates/mxc-proto/src/xeps/jingle_sdp.rs:183-194 | The credentials of every section are those of the first content with a user fragment, and empty without one. |
| `SdpFields.IdsAreListed` | crates/mxc-proto/src/xeps/jingle_sdp.rs:208-211 | The media line lists the payload ids in order. |
| `SdpFields.MediaLineText` | crates/mxc-proto/src/xeps/jingle_sdp.rs:211-211 | The media line as text. |
| `SdpFields.GroupLineText` | crates/mxc-proto/src/xeps/jingle_sdp.rs:200-200 | The group line as text. |
| `SdpFields.NamesInTheGroup` | crates/mxc-proto/src/xeps/jingle_sdp.rs:181-181 | The group lists the contents by name, one without a name as 0. |
| `SdpSections.WrittenIsParsed` | crates/mxc-proto/src/xeps/jingle_sdp.rs:166-264 | What is written for parsed sections is parsed as their normal form, section by section. |
| `SdpPayloads.FmtpFoundAgain` | crates/mxc-proto/src/xeps/jingle_sdp.rs:96-163 | After one round, the format parameters found for an id are those of its first format line. |
| `SdpPayloads.FbFoundAgain` | crates/mxc-proto/src/xeps/jingle_sdp.rs:96-163 | After one round, the feedback of an id is there once for each payload that has the id. |
| `SdpReread.RereadPayload` | crates/mxc-proto/src/xeps/jingle_sdp.rs:96-163 | A payload that was written and parsed keeps its parameters; its lines are the same when its entry meets the condition. |
| `SdpReread.CandidateReread` | crates/mxc-proto/src/xeps/jingle_sdp.rs:267-321 | A candidate that was written and parsed again is written as the same words. |
| `SdpReread.CandidateLineIsKept` | crates/mxc-proto/src/xeps/jingle_sdp.rs:267-321 | A candidate line of the six words and these pairs comes back as it was, but for the protocol in lower case. |
| `SdpJingle.JingleSurvives` | crates/mxc-proto/src/xeps/jingle_sdp.rs:96-321 | Jingle contents with what an SDP needs, and nothing it has no room for, are read back from the SDP written for them exactly as they were: names, credentials, fingerprint, payloads with parameters and feedback, source and candidates. |
| `SdpStable.StableIsStable` | crates/mxc-proto/src/xeps/jingle_sdp.rs:166-264 | When every section meets the condition, the second round writes the same lines. |
| `SdpNormalisation.UnchangedIsStable` | crates/mxc-proto/src/xeps/jingle_sdp.rs:166-264 | When the second round writes the same text, every section meets the condition. |
| `SdpNormalisation.TwiceIsOnceIff` | crates/mxc-proto/src/xeps/jingle_sdp.rs:166-264 | For every SDP with a media line: a second translation changes nothing if and only if every section has a kind, no kept third part of an rtpmap value with a fourth after it ends in white space, and no payload id with feedback is listed twice. |
| `SdpNormalisation.NoKindIsNotStable` | crates/mxc-proto/src/xeps/jingle_sdp.rs:44-50 | A concrete SDP for which the second translation differs: its media line names no kind. |
| `SdpNormalisation.NoMediaNoSdp` | crates/mxc-proto/src/xeps/jingle_sdp.rs:40-52 | There is no translation exactly when no line of the SDP begins with m=. |
| `SdpNormalisation.EverySectionCarriesThem` | crates/mxc-proto/src/xeps/jingle_sdp.rs:183-221 | Every section of the translated SDP carries the credentials of the first section that has a user fragment, and none if no section has one. |
| `MamClient.Client.LoadPage` | crates/mxc-proto/src/xeps/mam.rs:25-105 | One page backwards from any id: each stored id becomes the page's, as far as it has one, no gap is left between them, and nothing that was delivered is lost. |
| `MamClient.Client.Follow` | crates/mxc-proto/src/xeps/mam.rs:127-149 | Paging forward ends with everything up to the end of the archive delivered and the newest id there, or after the full number of pages. |
| `MamClient.Client.CatchUp` | crates/mxc-proto/src/xeps/mam.rs:111-155 | A conversation's catch-up, with its fallback to the latest page: when it is done, everything from the oldest id to the end the server saw has been delivered. |
| `MamClient.Client.CatchUpAccount` | crates/mxc-proto/src/xeps/mam.rs:172-219 | The account's catch-up: the first time it only records the end; later everything after the recorded id has been delivered when it is done. |
| `MamRuns.NothingBetweenIsMissing` | crates/mxc-proto/src/xeps/mam.rs:25-155 | In every run whose operations start by three rules (first load alone, explicit id alone, nothing starts beside an explicit id), however loads, catch-ups, failures and arrivals interleave, nothing between the two stored ids is missing, although backward paging moves the newest id back. |
| `MamRuns.CompleteMeansCaughtUp` | crates/mxc-proto/src/xeps/mam.rs:133-149 | In such a run, when a catch-up stores a page the server calls complete, everything from the oldest id to the end the server saw has been delivered. |
| `MamRuns.AtMostAHundredPages` | crates/mxc-proto/src/xeps/mam.rs:133-149 | In every run, a catch-up that asks for another page has stored fewer than a hundred. |
| `MamRuns.OneAtATimeIsWellStarted` | crates/mxc-proto/src/xeps/mam.rs:25-155 | Operations that do not overlap keep the rules, whatever ids are asked for. |
| `MamRuns.ExplicitIdDuringACatchUp` | crates/mxc-proto/src/xeps/mam.rs:43-47 | A concrete run that breaks only the rule on explicit ids and ends with a gap: one far back, asked for during a catch-up. |
| `MamRuns.TwoFirstLoadsAtOnce` | crates/mxc-proto/src/xeps/mam.rs:127-131 | A concrete run that breaks only the rule on first loads and ends with a gap: two of them overlap while messages arrive. |
| `MamRuns.CatchUpDuringAnExplicitId` | crates/mxc-proto/src/xeps/mam.rs:111-149 | A concrete run that breaks only the third rule and ends with a gap: a catch-up starts before the page of an explicit id is stored. |
| `Messages.Store.InsertMessage` | crates/mxc-store/src/messages.rs:129-201 | A message whose stanza id or origin id a row of the conversation has adds no row and fills in missing ids of one such row; any other becomes a new row as it is. No id that is set changes, and origin ids stay unique. |
| `Messages.Store.BackfillStanzaId` | crates/mxc-store/src/messages.rs:288-308 | Exactly the rows with this origin id have their missing ids filled in. |
| `Messages.DeliveryKeepsOriginsUnique` | crates/mxc-store/src/messages.rs:129-201 | No delivery makes two rows of a conversation share an origin id, whichever matching row the query takes. |
| `Messages.DeliveryOnlyFills` | crates/mxc-store/src/messages.rs:129-201 | No row is lost or moved, and an id that is set never changes. |
| `Messages.DeliveredIff` | crates/mxc-store/src/messages.rs:129-201 | What a delivery does to the table, in terms of the ids of its rows alone, and nothing else is a delivery. |
| `Messages.NothingIsStoredTwice` | crates/mxc-store/src/messages.rs:129-201 | In every run, a message with a stanza id or an origin id that is delivered again never adds a row, whatever came in between. |
| `Messages.FillingKeepsStanzasUniqueIff` | crates/mxc-store/src/messages.rs:149-163 | Filling in a stanza id keeps stanza ids unique exactly when the row has one already or no other row of the conversation has it. |
| `Messages.StanzaIdsCanRepeat` | crates/mxc-store/src/messages.rs:149-163 | A run of three concrete deliveries from an empty table after which two rows share a stanza id. |
| `Messages.OrderAndRepetitionDoNotMatter` | crates/mxc-store/src/messages.rs:129-201 | When every delivery carries an origin id and origin and stanza ids go together one to one, the stored pairs depend only on which deliveries there were. |
| `RecentMessages.RecentMessages` | crates/mxc-store/src/messages.rs:204-222 | The fetched rows, reversed in place. |
| `RecentMessages.RankIsPosition` | crates/mxc-store/src/messages.rs:268-282 | Among rows in newest-first order, the count since a row is its position. |
| `RecentMessages.ShownAreTheNewest` | crates/mxc-store/src/messages.rs:204-222 | What is shown of a conversation is its newest messages, as many as the limit allows or there are, the oldest of them first. |
| `RecentMessages.CountIsHowMany` | crates/mxc-store/src/messages.rs:268-282 | The count since a message is the number of messages of the conversation that are at least as recent. |
| `RecentMessages.CountOfAMissingRow` | crates/mxc-store/src/messages.rs:268-282 | The count since a message that is not there is zero. |
| `RecentMessages.LimitReachesMessageIff` | crates/mxc-store/src/messages.rs:204-282 | The newest rows contain a message exactly when the limit is at least the count since it; at equality it is the oldest of them. |
| `RecentMessages.JumpTargetIsLoadedIff` | crates/mxc-app-qt/src/session.rs:2293-2305 | The rows are counted, and fetched later: the message jumped to is loaded exactly while at most forty rows of its conversation that came in between are at least as recent; it then has before it as many of the forty older ones as these leave room for. |
| `Refresh.EveryRunIsSound` | crates/mxc-app-qt/src/session.rs:65-89 | With any number of callers and timers interleaved, the pending flag is set exactly while one timer has not cleared it, and the other flag being set means that a timer will take it or a caller is between its two writes. |
| `Refresh.NoRefreshIsLost` | crates/mxc-app-qt/src/session.rs:65-89 | Once everything has come to rest, the lists were reloaded after each call began, and the open chat after each call that wanted it. |
| `Refresh.CallIsTaken` | crates/mxc-app-qt/src/session.rs:65-89 | A new call is owed a refresh; when its steps are done a timer is sleeping, spawned for it only if none was, so that calls in a burst share one. |
| `Refresh.TimerCovers` | crates/mxc-app-qt/src/session.rs:76-88 | A timer takes the flag for the open chat as it is and then covers every call that has begun. |
| `Refresh.TimersAdvance` | crates/mxc-app-qt/src/session.rs:76-88 | The next step of a timer can always be taken and brings it closer to its end. |
| `Refresh.EveryRunComesToRest` | crates/mxc-app-qt/src/session.rs:65-89 | Without new calls, every order of the remaining steps ends after at most three for each timer and five for each call under way, and a run can go on exactly until everything is at rest. |

## Left out

- MaintainBundle: asks that the ids this very pass hands out do not run out (`IdsLeft`), because the largest id plus one wraps in 32 bits after four thousand million keys; `OwnKeys.NextIdIsFreeIff` says exactly when the next id is free.
- NothingBetweenIsMissing: one direction. Runs that keep the rules have no gap; one that breaks a rule need not show one, since a later page may fill it.
- Finish: a slice of percent-decoded text that would split a character stops the parse (`Panics`) instead of unwinding; printed codes never reach it.
- Uri.Finish: the conversion of invalid UTF-8 is a parameter that leaves ASCII, and valid JIDs, alone.
- Sce.FromXml: starts from the event stream; dividing text into events, the rule by which adjacent text is split or joined, and leaving out attributes that cannot be read are the XML library's.
- Sdp.ContentsToSdp: a Jingle element is a record of the attributes and children that are read; the XML text between the two translations is not part of the model.
- Sdp.CandidateToJingle: the random candidate id is not part of the record, because nothing reads it.
- LoadPage: a reply without its result element is not modelled (it leaves the cursor as it is and ends the loop), nor is the check that leaves private messages of a room out.
- InsertMessage: text columns other than the ids and the time stamp are left out, and time stamps are numbers in the order of their text.
- The order in which libsignal calls the stores during a handshake, and the session table: the signal protocol library is not part of this model; a handshake and a trust command are one step each.
- Accessors that fail on a record which decodes: such a record counts as unreadable.
- Interleaving inside a handshake, a trust command or a maintenance pass: the code that puts them in order is not part of this model.
- Weaker memory orders: the refresh flags are taken as sequentially consistent.
- Devices, network, media pipelines, user interface, settings, stories, roster and feeds: they pass data between the server, the tables and the screen, and keep no invariant of the five areas above.
