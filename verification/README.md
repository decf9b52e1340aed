# Verified model of the remote-control protocol core

This Dafny project models the parts of the remote-desktop system in which most of its protocol
logic lives, and proves what they promise over every input, every run and every interleaving.
Each module follows one component:

- **Secure session.** `Canonical`, `Security` and `Header` hold the byte encodings that are hashed,
  signed and authenticated. `Handshake` and `KeySchedule` hold the signed key exchange, transcript,
  key derivation and key confirmation. `SecureSession`, `E2ee` and `ReplayWindow` hold sealing,
  opening, send counters and the 64-bit sliding window; `SessionRuns` and `Delivery` reason about
  whole runs of one end and about two ends with a network between them. `HonestHandshake` shows
  that undisturbed handshakes succeed, so the agreement results are about something.
- **Canonical request targets.** `PercentEncoding` (sections 6.2.2.1 and 6.2.2.2 of RFC 3986),
  `DotSegments` (section 5.2.4 of RFC 3986) and `RequestTarget`.
- **Encoder output.** `ContentLength`, `Multipart`, `MultipartStreams`, `MultipartRuns`,
  `MultipartPrinter` and `EncoderReader` for the incremental multipart parser and its reader thread,
  and `AnnexB` for the start-code scan of Annex B of ITU-T H.264.
- **Candidate binding.** `Binding` for candidate identifiers and authorizations, `ProbeReplay` for
  the guard that prunes by expiry.
- **Callbacks and QUIC.** `CallbackGate` and `QuicTransport`, as atomic steps of any number of
  threads; `Counting` holds their totals.
- **Signal client.** `SignalHello`, `SignalMachine` and `SignalWorker`.

How the model is built:

- Code that updates fields in place is a class whose methods are proved equal to a step function on
  values. The results about runs are lemmas over those step functions.
- Beside each step function stands a lemma that says without it exactly when the step succeeds and
  what it does, with the constants, tables and orders of the source spelled out (`...Iff`,
  `...TakesEffect`, `...Refusals`, `...Tables`, `...Codes`).
- A Rust `str` is its UTF-8 bytes. Unsigned integers carry their width; 64-bit shifts lose the bits
  shifted out; `& 0x1f` is written `% 32`; saturating subtraction is written out.
- SHA-256, Ed25519, X25519, HKDF (section 2.3 of RFC 5869), HMAC and ChaCha20-Poly1305 (section 2.8
  of RFC 8439) are arbitrary functions. Two laws are assumed where used: agreement commutes, and
  opening undoes sealing. Hashes are not assumed injective: theorems either name the two messages
  that would have to collide, or assume that one named pair does not. Unforgeability is assumed of
  the frames and signatures presented in the run at hand, never of all bytes.
- Clocks, random values, the network and the outcome of foreign calls are parameters.

Three promises need a condition. It is stated exactly, with an input that shows it is needed:

- The payload encoding is injective except between payloads of which one fits its path and the other
  does not (`Security.PayloadEqualIff`, `Security.PayloadCollisionWithoutPathBinding`).
- The probe guard accepts a key at most once if one expiry is shown with it and the clock does not
  pass that expiry between two of its probes; a clock that never goes back is enough
  (`ProbeReplay.AcceptedTwiceIff`, `ProbeReplay.ReplayIff` for any expiries and any clock). A shorter
  second authorization or a clock that steps back re-admits a probe
  (`ProbeReplay.ShorterAuthorizationReadmits`, `ProbeReplay.BackwardClockReadmits`).
- The multipart parser forgets its buffer at a closing delimiter. The cut of a stream makes no
  difference exactly when no stretch behind a closed prefix holds a unit or is refused, and the header
  limit is overflowed by a prefix only if by the whole (`MultipartRuns.CutFreeIff`, with
  `MultipartPrinter.HiddenPartIsFound` and `MultipartPrinter.LongHeadIsUnsettled`). Streams that close nowhere or only at their end qualify.

Nothing here was executed; the proofs are about the model.

## Model

| member | source | states |
|---|---|---|
| `Canonical.CanonicalWriter.PushField` | crates/remote-protocol/src/canonical.rs:34-42 | A push appends exactly the two length-prefixed strings, or writes nothing and names the string that does not fit in 32 bits. |
| `Canonical.WriteFields` | crates/remote-protocol/src/canonical.rs:18-79 | A chain of pushes gives the field encoding of the whole list, or the error of its first field that does not fit. |
| `Canonical.TakeFieldsInverts` | crates/remote-protocol/src/canonical.rs:34-42 | A decoder that reads fields off the front recovers every list of fields and leaves exactly what follows it. |
| `Canonical.FieldsPrefixFree` | crates/remote-protocol/src/canonical.rs:34-42 | Equal bytes with equally many fields in front force equal fields and equal rests, whatever the rests are. |
| `Canonical.FieldsUnique` | crates/remote-protocol/src/canonical.rs:34-42 | Two lists of fields of any lengths with equal encodings are the same list. |
| `Security.PermissionsInjective` | crates/remote-protocol/src/permissions.rs:70-83 | Permission encodings are equal only when all nine flags are. |
| `Security.PermissionsEncodable` | crates/remote-protocol/src/permissions.rs:70-83 | Permission encodings never fail. |
| `Security.SessionContextInjective` | crates/remote-protocol/src/security.rs:87-103 | Session contexts with one encoding are the same context. |
| `Security.PayloadEqualIff` | crates/remote-protocol/src/security.rs:123-154 | Key-exchange payloads with one encoding are the same exactly when both or neither fit their path. |
| `Security.PayloadInjective` | crates/remote-protocol/src/security.rs:123-154 | Path-consistent key-exchange payloads with one encoding are the same payload. |
| `Security.PayloadCollisionWithoutPathBinding` | crates/remote-protocol/src/canonical.rs:48-54 | The input that shows the condition is needed: `None` and `Some("")` relay nodes always share an encoding, and exactly one of the two fits the path. |
| `Header.DecodeInvertsEncode` | crates/remote-protocol/src/header.rs:231-269 | Decoding the encoding of any current-version header with a legal kind and channel, with any bytes behind it, gives the header back. |
| `Header.EncodeInvertsDecode` | crates/remote-protocol/src/header.rs:244-269 | Every accepted input is, in its first 40 bytes, the encoding of the header returned, which is current and legal. |
| `Header.EncodeHeaderInjective` | crates/remote-protocol/src/header.rs:231-242 | Headers of any version, legal or not, have different bytes when they differ. |
| `Header.ChannelCodes` | crates/remote-protocol/src/header.rs:11-41 | Every channel is the one decoded from its own code. |
| `Header.ChannelDecodes` | crates/remote-protocol/src/header.rs:24-41 | A code decodes to a channel only if it is that channel's code. |
| `Header.KindCodes` | crates/remote-protocol/src/header.rs:123-161 | Every message kind is the one decoded from its own code. |
| `Header.KindDecodes` | crates/remote-protocol/src/header.rs:123-161 | A code decodes to a kind only if it is that kind's code. |
| `Header.ChannelWireCodes` | crates/remote-protocol/src/header.rs:27-40 | The nine channels have the codes 0 to 8 on the wire, in the order of the table. |
| `Header.MediaWireCodes` | crates/remote-protocol/src/header.rs:126-157 | The codes on the wire of the session, media and input kinds. |
| `Header.ContentWireCodes` | crates/remote-protocol/src/header.rs:139-148 | The codes on the wire of the clipboard, display and file kinds. |
| `Header.DeviceWireCodes` | crates/remote-protocol/src/header.rs:149-156 | The codes on the wire of the privacy, reboot and statistics kinds. |
| `Header.KnownCodes` | crates/remote-protocol/src/header.rs:126-160 | Exactly the listed numbers are codes of a kind or of a channel. |
| `Header.ChannelsOfGroups` | crates/remote-protocol/src/header.rs:80-121 | On which channel each group of kinds is accepted: input events on two, video frames on the video channel, every other kind on the one of its group. |
| `Header.DecodesIff` | crates/remote-protocol/src/header.rs:244-269 | An input is accepted exactly with 40 bytes, the magic, version 1, known codes and a channel its kind accepts; the refusals come in that order. |
| `Primitives.VerifyCanonicalSignature` | crates/remote-crypto/src/identity.rs:55-74 | A signature passes exactly when the key parses and the signature verifies over the SHA-256 of the bytes; otherwise the error says which of the two failed. |
| `ReplayWindow.CheckDecidesAcceptable` | crates/remote-crypto/src/e2ee.rs:112-127 | On a bitmap that refines a set of accepted numbers, the check accepts exactly the numbers that are new and above the lower edge, reports "too old" exactly below the edge, and "replay" exactly for the numbers in the set. |
| `ReplayWindow.RecordRefines` | crates/remote-crypto/src/e2ee.rs:129-148 | Recording an acceptable number keeps the refinement: bit d is set exactly when highest - d is in the set with the number added. |
| `ReplayWindow.WindowRefinesAcceptedSet` | crates/remote-crypto/src/e2ee.rs:105-148 | After every run of check-then-record from the empty window the bitmap is the recent part of the accepted set, no number was accepted twice, and the next number is accepted exactly when new and not below the window. |
| `ReplayWindow.BitOfShift` | crates/remote-crypto/src/e2ee.rs:129-148 | Shifting a 64-bit word left moves every bit and loses those shifted out. |
| `ReplayWindow.ReplayGuard.CheckSequence` | crates/remote-crypto/src/e2ee.rs:157-162 | The guard's check is the sequence limit, then the check of that channel's window. |
| `ReplayWindow.ReplayGuard.RecordSequence` | crates/remote-crypto/src/e2ee.rs:164-167 | Recording changes that channel's window as specified and no other. |
| `ReplayWindow.GuardChecksIff` | crates/remote-crypto/src/e2ee.rs:157-162 | A number passes exactly below 2^48, new to its channel and not below that channel's window. |
| `ReplayWindow.GuardRecordsOne` | crates/remote-crypto/src/e2ee.rs:164-167 | A recorded number joins the accepted set of its channel, and the windows of the other channels stay as they were. |
| `E2ee.NonceReadsBack` | crates/remote-crypto/src/e2ee.rs:14-27 | Every number up to 2^48 - 1 has a nonce whose twelve bytes read back as prefix, channel and number. |
| `E2ee.NonceInjective` | crates/remote-crypto/src/e2ee.rs:14-27 | Equal nonces force equal prefix, channel and sequence number. |
| `E2ee.AadInjective` | crates/remote-crypto/src/e2ee.rs:29-39 | Equal authenticated data forces equal header, permissions digest and direction, although the three are joined without lengths. |
| `E2ee.DecryptPayload` | crates/remote-crypto/src/e2ee.rs:73-103 | The result and the replay guard left behind are those of check, open, record in this order: only an authentic frame is recorded. |
| `E2ee.DecryptInvertsEncrypt` | crates/remote-crypto/src/e2ee.rs:41-103 | What was encrypted decrypts to the same bytes and is recorded, wherever its number is still acceptable. |
| `E2ee.AadReadsBack` | crates/remote-crypto/src/e2ee.rs:29-39 | The authenticated data is 40 header bytes, the 32-byte digest and the name of the direction. |
| `E2ee.EncryptsIff` | crates/remote-crypto/src/e2ee.rs:41-71 | A message is encrypted exactly when its kind may use the channel, its size with the tag fits 32 bits and its number is below 2^48; the ciphertext is the AEAD under the given key, the nonce of prefix, channel and number, and the header with the final length. Each refusal is named. |
| `E2ee.DecryptsIff` | crates/remote-crypto/src/e2ee.rs:73-103 | A frame decrypts, and is recorded, exactly when its kind may use the channel, its length is the stated one, its number is acceptable and the AEAD opens it; each refusal is named and leaves the windows alone. |
| `KeySchedule.TranscriptUnique` | crates/remote-crypto/src/session.rs:135-166 | The transcript bytes, two payload encodings and two raw signatures with no outer lengths, determine both signatures and, exactly where their fit with the path agrees, both messages. |
| `KeySchedule.KdfInfoUnique` | crates/remote-crypto/src/session.rs:218-230 | The derivation info, an encoded context followed by a bare label, determines the label and, exactly where the fit with the path agrees, the whole context; what the keys make of it is KeysAreHkdf and KeysDifferOrCollide. |
| `KeySchedule.TranscriptReadsBack` | crates/remote-crypto/src/session.rs:135-166 | A decoder reads the transcript back as the controller's payload and signature, then those of the controlled end. |
| `KeySchedule.DerivesIff` | crates/remote-crypto/src/session.rs:168-216 | Keys are derived exactly for a context that fits its path and can be encoded. |
| `KeySchedule.KeysAreHkdf` | crates/remote-crypto/src/session.rs:168-230 | Each of the six keys is HKDF of the hashed salt, the shared secret and the encoded context with that key's own label; a nonce prefix is its first four bytes. |
| `KeySchedule.SaltCovers` | crates/remote-protocol/src/security.rs:211-223 | Equal salts come from equal session, devices, permissions digest and expiry. |
| `KeySchedule.KeysDifferOrCollide` | crates/remote-crypto/src/session.rs:168-230 | Two derived keys that differ in shared secret, context or place among the six are equal only where HKDF collides on the two inputs named, on 32 bytes or, between nonce prefixes, on four. |
| `KeySchedule.SecretDecidesKeys` | crates/remote-crypto/src/session.rs:182-182 | Wherever HKDF tells two shared secrets apart, every one of the six keys does. |
| `KeySchedule.KeysOfSender` | crates/remote-crypto/src/session.rs:28-60 | The controller sends and confirms with the forward keys, the controlled end with the backward ones. |
| `KeySchedule.KeyConfirmReplayGuard.Verify` | crates/remote-crypto/src/session.rs:259-301 | Result and replay set are those of the specified verification, whose exact condition, MAC included, is ConfirmsIff; a fingerprint is stored before the replay is reported. |
| `KeySchedule.ConfirmsIff` | crates/remote-crypto/src/session.rs:265-301 | A confirm is accepted exactly when it names the expected device, role and transcript, is at most 30 seconds from the clock, carries the HMAC of its own fields under the confirmation key of its sender's role, and has a new fingerprint; exactly the authentic ones are stored. |
| `KeySchedule.ConfirmRefusals` | crates/remote-crypto/src/session.rs:265-301 | Which error a refused confirm gets: device or role, then transcript, then time, then MAC. |
| `KeySchedule.MacInputCovers` | crates/remote-protocol/src/security.rs:180-192 | The MAC covers session, device, role, transcript hash and time. |
| `KeySchedule.CreatedConfirm` | crates/remote-crypto/src/session.rs:232-257 | A created confirm says what it was asked to, with the HMAC under the key of its sender's role; only an overlong device name fails. |
| `KeySchedule.OwnConfirmAccepted` | crates/remote-crypto/src/session.rs:232-301 | A confirm made from given keys, transcript and device is accepted by a fresh guard holding the same exactly when the clocks differ by at most 30 seconds. |
| `SecureSession.NewSecureSession` | crates/remote-core/src/session_crypto.rs:55-86 | A session is created exactly when the relay node is present on relay paths and absent on others, and starts in its initial state. |
| `SecureSession.SecureSession.CreateLocalKeyConfirm` | crates/remote-core/src/session_crypto.rs:106-125 | New state and outcome are those of the specified step: one confirm per session, none after invalidation. |
| `SecureSession.SecureSession.VerifyPeerKeyConfirm` | crates/remote-core/src/session_crypto.rs:127-159 | New state and outcome are those of the specified step: every failure and every repetition invalidates. |
| `SecureSession.SecureSession.SealMessage` | crates/remote-core/src/session_crypto.rs:161-188 | New state and outcome are those of the specified step: only a successful seal consumes a number. |
| `SecureSession.SecureSession.OpenMessage` | crates/remote-core/src/session_crypto.rs:190-211 | New state and outcome are those of the specified step: authentication comes before authorization, and only the window of that channel changes. |
| `SecureSession.SecureSession.InvalidateIfBindingChanged` | crates/remote-core/src/session_crypto.rs:213-232 | Any change of permissions digest, path, pair or relay node invalidates; no change leaves everything as it was. |
| `SecureSession.SecureSession.InvalidateForReboot` | crates/remote-core/src/session_crypto.rs:234-236 | A reboot sets the invalidated flag and nothing else. |
| `SecureSession.SecureSession.RestoreSendSequence` | crates/remote-core/src/session_crypto.rs:238-251 | A counter is only ever raised, within the limit, and not after invalidation. |
| `SecureSession.SecureSession.EnsureReady` | crates/remote-core/src/session_crypto.rs:261-268 | Readiness is exactly both confirmations without invalidation, with the matching refusal otherwise. |
| `SecureSession.PermissionOfGroups` | crates/remote-core/src/session_crypto.rs:270-309 | Which permission a kind needs, by the group of its code. |
| `SecureSession.CreatesConfirmIff` | crates/remote-core/src/session_crypto.rs:106-125 | A local confirm is made exactly once, before any invalidation, for an encodable device name; otherwise nothing changes. |
| `SecureSession.VerifiesConfirmIff` | crates/remote-core/src/session_crypto.rs:127-159 | A peer confirm is verified exactly when it is the first, nothing was invalidated, and it is authentic for this session, the other role and the peer's device; anything else invalidates. |
| `SecureSession.KeysByRole` | crates/remote-core/src/session_crypto.rs:161-211 | By its role an end seals with one pair of key and nonce prefix and opens with the other. |
| `SecureSession.NumbersIff` | crates/remote-core/src/session_crypto.rs:161-178 | A number is given out exactly in a Ready session, for a permitted kind, while the counter is below 2^48; it is the counter. |
| `SecureSession.SealsIff` | crates/remote-core/src/session_crypto.rs:161-188 | A message is sealed exactly when the session is Ready, the kind is permitted and may use the channel, and size and counter are in range; the header repeats kind, channel, flags and session with the counter, and the ciphertext is under the key of the end's role. |
| `SecureSession.OpensIff` | crates/remote-core/src/session_crypto.rs:190-211 | A frame is opened exactly when the session is Ready, the frame is of this session and decrypts, and its kind is permitted; a kind that is not is refused only after the frame was recorded. Each refusal is named. |
| `SecureSession.BindingHoldsIff` | crates/remote-core/src/session_crypto.rs:213-232 | The binding check passes exactly when digest, path, pair and relay node are all unchanged; any change is named and invalidates. |
| `SecureSession.RestoresIff` | crates/remote-core/src/session_crypto.rs:238-251 | A counter is restored exactly without an invalidation, to a number not lower and below 2^48; then the next message sealed on the channel takes it. |
| `SessionRuns.FlagsAreHistory` | crates/remote-core/src/session_crypto.rs:88-159 | After every run the three flags are exactly its history: one local confirm, one verified peer confirm, and something broken or not. |
| `SessionRuns.DataNeedsConfirmedSession` | crates/remote-core/src/session_crypto.rs:88-268 | In every run, data moves only after one local and one verified peer confirm with no failed or repeated peer confirm, binding change or reboot before; each of the two refusals is given exactly in its case. |
| `SessionRuns.VerifiedConfirmIsAuthentic` | crates/remote-core/src/session_crypto.rs:127-159 | In every run, a peer confirm is verified only if it carries the HMAC under the peer's confirmation key over its own fields, for this session and transcript, within 30 seconds, as the first and with nothing broken before. |
| `SessionRuns.PhaseNeverGoesBack` | crates/remote-core/src/session_crypto.rs:88-96 | Over every run the phase goes Awaiting, Ready, Invalidated and never back. |
| `SessionRuns.SealedBelowCounters` | crates/remote-core/src/session_crypto.rs:161-188 | Every frame sealed in a run carries a number below its channel's counter and at most 2^48 - 1. |
| `SessionRuns.NoncesNeverRepeat` | crates/remote-core/src/session_crypto.rs:161-251 | Over any mix of operations from any state, successful seals on a channel use strictly increasing numbers and no two seals of the session share a nonce. |
| `Delivery.RunInv` | crates/remote-core/src/session_crypto.rs:161-211 | Over every interleaving of both ends the receiver's bitmaps are the recorded numbers, and everything delivered was sealed. |
| `Delivery.ExactlyOnceDelivery` | crates/remote-core/src/session_crypto.rs:161-211 | With frames dropped, duplicated, reordered or altered, every delivered message was sealed by the peer with that header and plaintext, no channel and number is delivered twice, and a sealed frame arriving now is delivered exactly when its number is new and not below the window. |
| `Delivery.SealedFrameOpens` | crates/remote-crypto/src/e2ee.rs:73-127 | A frame the peer sealed opens to its plaintext exactly when its number is acceptable to the set of recorded numbers. |
| `Delivery.OpenEffect` | crates/remote-core/src/session_crypto.rs:190-211 | Opening either records an authentic, acceptable frame and nothing else, or leaves the session as it was. |
| `Delivery.ForgeryLeavesNoTrace` | crates/remote-crypto/src/e2ee.rs:73-103 | Bytes that do not authenticate are refused and change nothing, whatever header they carry. |
| `Delivery.ReorderingIsUnforged` | crates/remote-core/src/session_crypto.rs:190-211 | A network that only drops, duplicates and reorders sealed frames meets the premise of the delivery theorem, whatever the cipher. |
| `Handshake.NewHandshake` | crates/remote-runtime/src/handshake.rs:92-127 | A handshake begins exactly for a valid configuration, with the payload the configuration determines. |
| `Handshake.SessionHandshake.AddLocalSignature` | crates/remote-runtime/src/handshake.rs:140-168 | A local signature is stored exactly when it is the first, 64 bytes long and verifies over the local payload. |
| `Handshake.SessionHandshake.VerifyPeer` | crates/remote-runtime/src/handshake.rs:170-223 | A peer message is stored exactly when it passes every check; otherwise nothing changes. |
| `Handshake.VerifyPeerMessageSound` | crates/remote-runtime/src/handshake.rs:170-223 | Verification keeps the handshake invariant: a stored peer payload is bound field by field to the local configuration. |
| `Handshake.AcceptedIsSigned` | crates/remote-runtime/src/handshake.rs:170-223 | If the peer's device signed one digest in this handshake, an accepted message has that digest. |
| `Handshake.ValidConfigIff` | crates/remote-runtime/src/handshake.rs:273-292 | What a configuration must hold: no empty or zero name, identifier or nonce, two devices, version 1, a time before the expiry, a relay node exactly on relay paths, and the device and digest that belong to it. |
| `Handshake.BeginsIff` | crates/remote-runtime/src/handshake.rs:92-127 | A handshake begins exactly for a valid, encodable configuration, with the payload it determines and no message. |
| `Handshake.SignsIff` | crates/remote-runtime/src/handshake.rs:140-168 | A local signature is stored exactly when it is the first, 64 bytes long and verifies over the payload's hash under the local key. |
| `Handshake.PeerBoundIff` | crates/remote-runtime/src/handshake.rs:185-204 | What a peer payload must repeat of the configuration, field by field. |
| `Handshake.VerifiesIff` | crates/remote-runtime/src/handshake.rs:170-223 | A peer message is stored exactly when it is the first, neither clock nor message is at or past the expiry, it repeats the configuration, is at most 30 seconds from the clock, and its 64-byte signature verifies over its hash under the peer's key. |
| `Handshake.PeerRefusals` | crates/remote-runtime/src/handshake.rs:170-223 | Which error a refused message gets: state, then expiry, then binding, then age. |
| `Handshake.FinishedSession` | crates/remote-runtime/src/handshake.rs:225-270 | A finished handshake is a fresh session of its configuration with the transcript hash of both messages, controller first, the keys derived from its own secret and the peer's public key, and its confirm sent. |
| `Handshake.PeerContextAgreement` | crates/remote-runtime/src/handshake.rs:170-292 | Accepting the peer's signature settles account, session, devices, permissions, version, expiry, path, candidate pair and relay node at both ends, unless a named SHA-256 collision exists. |
| `Handshake.SameTranscriptIffRelayedUnchanged` | crates/remote-runtime/src/handshake.rs:225-250 | Both ends transcribe the same bytes exactly when both signed messages arrived unchanged. |
| `Handshake.FinishedAgreement` | crates/remote-runtime/src/handshake.rs:225-270 | The transcript hashes are equal exactly when nothing was changed on the way, and then all six keys are. |
| `Handshake.ConfirmAcceptedIff` | crates/remote-crypto/src/session.rs:265-301 | A fresh session accepts the peer's confirm, and becomes Ready, exactly when the transcript hashes are equal and the clocks are inside the window. |
| `Handshake.TwoPartyAgreement` | crates/remote-runtime/src/handshake.rs:92-292 | Two ends that accept each other's signatures and finish agree on every context field; exactly when both messages arrived unchanged and the clock is inside the window does one accept the other's key confirm, and then hash, keys and binding are shared and it is Ready. |
| `Handshake.MutualAgreement` | crates/remote-runtime/src/handshake.rs:92-292 | Each of the two ends accepts the other's key confirm, and becomes Ready, exactly when both signed messages arrived unchanged and its own clock is within 30 seconds of the confirm. |
| `Handshake.VerifyingEndsAgree` | crates/remote-runtime/src/handshake.rs:140-292 | The same from the calls themselves: two signed ends that each verify some message as the other's, neither of the two signatures forged, and finish, agree on roles, permissions and every context field, and confirm each other exactly when both messages are the ones signed and the clocks are inside the window. |
| `HonestHandshake.HonestMessageAccepted` | crates/remote-runtime/src/handshake.rs:170-223 | Between mirrored configurations the message the other end signed is accepted whenever the clock is inside the window and before the expiry. |
| `HonestHandshake.HonestEndsAgree` | crates/remote-runtime/src/handshake.rs:170-223 | Two such ends meet every premise of the agreement theorem, with nothing assumed about collisions. |
| `HonestHandshake.FinishesIff` | crates/remote-runtime/src/handshake.rs:225-270 | A handshake holding both messages finishes exactly before its expiry and with a shared secret that is not zero. |
| `HonestHandshake.HonestEndsConfirm` | crates/remote-runtime/src/handshake.rs:225-292 | Two ends that have heard each other, before the expiry and with a contributory exchange, both finish, accept each other's key confirm and are Ready. |
| `HonestHandshake.HonestRunSucceeds` | crates/remote-runtime/src/handshake.rs:92-292 | The whole run from two configurations of one session: when both begin and store their signatures, the times fit and the exchange is contributory, each end verifies the message the other signed, finishes, accepts the other's key confirm and is Ready. |
| `PercentEncoding.NormalizePercentEncoding` | crates/remote-protocol/src/canonical.rs:286-318 | The loop over bytes and escapes computes the token-wise normalisation, and fails exactly where a token is broken. |
| `PercentEncoding.NormalizeIsNormal` | crates/remote-protocol/src/canonical.rs:286-318 | Every result is a normal spelling. |
| `PercentEncoding.NormalIffFixed` | crates/remote-protocol/src/canonical.rs:286-318 | The normal spellings are exactly the ones normalisation leaves alone. |
| `PercentEncoding.NormalizeEqualIff` | crates/remote-protocol/src/canonical.rs:286-318 | Two accepted spellings normalise alike exactly when their canonical tokens agree. |
| `PercentEncoding.QueryNormalIsDecoded` | crates/remote-protocol/src/canonical.rs:260-318 | Two accepted query components normalise alike exactly when they percent-decode to the same bytes. |
| `PercentEncoding.RawTables` | crates/remote-protocol/src/canonical.rs:260-360 | Which characters stand raw, in a path and in a query. |
| `PercentEncoding.DigitTables` | crates/remote-protocol/src/canonical.rs:362-377 | Both cases of a hexadecimal digit are read, the upper case is written. |
| `PercentEncoding.TokensIff` | crates/remote-protocol/src/canonical.rs:286-318 | A spelling is read exactly when every percent sign is followed by two hexadecimal digits. |
| `PercentEncoding.EscapeRead` | crates/remote-protocol/src/canonical.rs:295-308 | An escape is read as the byte its two digits spell, the high one first. |
| `PercentEncoding.CanonIff` | crates/remote-protocol/src/canonical.rs:295-316 | A byte is written raw exactly when it is unreserved, or was raw and is allowed in its component; its value never changes. |
| `PercentEncoding.NormalizesIff` | crates/remote-protocol/src/canonical.rs:286-318 | Normalisation succeeds exactly on well escaped spellings, keeps the decoded bytes, and rewrites token by token. |
| `DotSegments.RemoveDotSegments` | crates/remote-protocol/src/canonical.rs:320-356 | The rewriting loop ends and computes the iterated rewriting of its input. |
| `DotSegments.RemovedOnRooted` | crates/remote-protocol/src/canonical.rs:320-356 | On a path that starts with a slash the loop is a fold over the segments with a stack. |
| `DotSegments.DotFreeIsFixed` | crates/remote-protocol/src/canonical.rs:320-356 | The resolved segments are not empty, hold no "." or ".." segment, read back from their spelling, and resolve to themselves. |
| `DotSegments.DotsCancel` | crates/remote-protocol/src/canonical.rs:320-356 | The laws of the segments: a "." vanishes, a ".." takes the segment before it along or vanishes at the root, and either of them at the end leaves an empty last segment. |
| `DotSegments.DotRemovalKeepsNormal` | crates/remote-protocol/src/canonical.rs:320-356 | A percent-normalised path stays percent-normalised. |
| `RequestTarget.CanonicalRequestTarget` | crates/remote-protocol/src/canonical.rs:95-158 | The function returns the specified target or the error, for every input; AcceptedIff, CanonicalShape and PrintedInOrder say what that is. |
| `RequestTarget.AcceptedIff` | crates/remote-protocol/src/canonical.rs:95-142 | A target is accepted exactly when it starts with a slash, is printable ASCII without backslash and hash, has only whole escapes, and has a query that is empty or without plus signs and with a key in every piece. |
| `RequestTarget.BytesOrderIff` | crates/remote-protocol/src/canonical.rs:143-143 | The byte order is the lexicographic one: a proper prefix comes first, else the smaller byte at the first difference. |
| `RequestTarget.PrintedInOrder` | crates/remote-protocol/src/canonical.rs:143-157 | The pairs read off the printed query are the normalised pairs of the input, each as often, ordered by key, then value, then no equals sign first. |
| `RequestTarget.PieceParts` | crates/remote-protocol/src/canonical.rs:126-133 | The key of a piece is what precedes its first equals sign. |
| `RequestTarget.TargetParts` | crates/remote-protocol/src/canonical.rs:106-108 | Path and query are what precedes and follows the first question mark. |
| `RequestTarget.CanonicalShape` | crates/remote-protocol/src/canonical.rs:95-158 | An accepted target prints its resolved path and sorted pairs; the path is never empty, starts with a slash, is normal and dot-free, so the check after dot removal never fires. |
| `RequestTarget.ReadTarget` | crates/remote-protocol/src/canonical.rs:95-158 | A printed target reads back as the same path and the same pairs. |
| `RequestTarget.SortUnique` | crates/remote-protocol/src/canonical.rs:143-143 | Every sort of the same pairs gives the same list, so an unstable sort is enough. |
| `RequestTarget.CanonicalIdempotent` | crates/remote-protocol/src/canonical.rs:95-158 | Canonicalising an output gives the same output. |
| `RequestTarget.SameTargetIff` | crates/remote-protocol/src/canonical.rs:95-158 | Two accepted targets give the same output exactly when their paths resolve to the same segments and their queries hold the same multiset of decoded (key, value, has-equals) triples. |
| `ContentLength.ReadContentLength` | crates/remote-codec/src/lib.rs:574-597 | The loop over header lines computes the specified length or error. |
| `ContentLength.PrintedLengthParses` | crates/remote-codec/src/lib.rs:574-597 | Any header lines with other names, followed by the Content-Length line of a number, parse to that number. |
| `ContentLength.ContentLengthErrors` | crates/remote-codec/src/lib.rs:574-597 | A header block is refused only as missing, duplicate or invalid, never with a size error. |
| `ContentLength.StatesLengthIff` | crates/remote-codec/src/lib.rs:574-597 | A header block states a length exactly when it is UTF-8, every line has a colon and exactly one line is a Content-Length, with that value; it lacks one exactly when none is. |
| `ContentLength.ParsesLengthIff` | crates/remote-codec/src/lib.rs:585-593 | A value is read as a length exactly when it is digits with any Unicode white space around them, for a number below 2^64. |
| `ContentLength.NamesLengthIff` | crates/remote-codec/src/lib.rs:581-581 | The name is compared in either case of each letter. |
| `ContentLength.DuplicateIsRefused` | crates/remote-codec/src/lib.rs:582-584 | A second Content-Length line is refused as a duplicate. |
| `ContentLength.ValidUtf8Iff` | crates/remote-codec/src/lib.rs:575-575 | A header block is taken as text exactly when it spells Unicode scalar values in UTF-8 (section 3 of RFC 3629). |
| `ContentLength.SpaceFront` | crates/remote-codec/src/lib.rs:585-585 | What is trimmed is exactly the characters of the Unicode property White_Space. |
| `Multipart.FindIsFirst` | crates/remote-codec/src/lib.rs:599-603 | The search returns an index exactly when it is the first occurrence, and nothing exactly when there is none. |
| `Multipart.NewParser` | crates/remote-codec/src/lib.rs:335-349 | A parser is made exactly for a non-empty alphanumeric boundary and a maximum from 1 to 32 MiB, with an empty buffer; a bad boundary is reported before a bad maximum. |
| `Multipart.MultipartAccessUnitParser.Push` | crates/remote-codec/src/lib.rs:351-417 | A push refuses an overflowing input untouched; otherwise result and remaining buffer are those of draining old buffer and input together. |
| `Multipart.MultipartAccessUnitParser.DrainBuffer` | crates/remote-codec/src/lib.rs:362-417 | The loop drains access units in place until it waits, closes or fails, and leaves the buffer of that stop. |
| `Multipart.PassWithoutDelimiter` | crates/remote-codec/src/lib.rs:363-366 | Without a delimiter in it, the buffer is cut to the bytes that could begin one. |
| `Multipart.PassAtDelimiter` | crates/remote-codec/src/lib.rs:367-381 | Behind the first delimiter a pass waits for two bytes, closes on two dashes and refuses everything but a line break. |
| `Multipart.PassWithoutHeaders` | crates/remote-codec/src/lib.rs:382-389 | Without a blank line a pass waits, and refuses once more than 16384 bytes are held. |
| `Multipart.PassWithHeaders` | crates/remote-codec/src/lib.rs:390-415 | With a blank line a pass reports the header block's error, an empty or too large body, waits for the body, or takes exactly it and the line break behind it. |
| `Multipart.PushIff` | crates/remote-codec/src/lib.rs:351-361 | A push is refused, with the buffer as it was, exactly when a non-empty input would take the buffer over the maximum and 65536 bytes; otherwise it returns the units of the drain or its error. |
| `MultipartStreams.DrainExtends` | crates/remote-codec/src/lib.rs:362-425 | Draining now and the rest later gives the units and the stop of draining all at once; a close, and any error but a size limit, is final. |
| `MultipartStreams.SkipIsHarmless` | crates/remote-codec/src/lib.rs:410-415 | Skipping the line break after a body or leaving it makes no difference to what follows. |
| `MultipartRuns.ChunkIndependence` | crates/remote-codec/src/lib.rs:351-426 | Any cut of a quiet stream, of any length, delivers what one drain of the whole delivers, or ends in the same error, unless a push overflows the buffer or a prefix the header limit. |
| `MultipartRuns.CutsAgree` | crates/remote-codec/src/lib.rs:351-426 | Two cuts of one quiet stream that hit no size limit agree on the error and, without one, on every unit. |
| `MultipartRuns.CutFreeIff` | crates/remote-codec/src/lib.rs:351-426 | For every stream one push can take: every cut has the outcome of the whole exactly when no stretch behind a closed prefix holds a unit or is refused, and no prefix overflows the header limit unless the whole does. |
| `MultipartRuns.ClosingAtEndIsQuiet` | crates/remote-codec/src/lib.rs:374-377 | A stream that closes nowhere, or only at its end, is quiet. |
| `MultipartPrinter.DrainInvertsPrint` | crates/remote-codec/src/lib.rs:362-417 | Draining printed parts gives their bodies, in order and unchanged, whatever bytes they hold. |
| `MultipartPrinter.PrefixPending` | crates/remote-codec/src/lib.rs:362-417 | No prefix of a printed stream with ordinary heads is refused or closes. |
| `MultipartPrinter.CutStreamDelivers` | crates/remote-codec/src/lib.rs:351-426 | Printed parts, with or without the closing delimiter, cut in any way come back as the same bodies unless a size limit is hit. |
| `MultipartPrinter.ShortHeadsFit` | crates/remote-codec/src/lib.rs:382-389 | Heads of at most 16385 bytes never hit the header limit under any cut. |
| `MultipartPrinter.LongHeadIsUnsettled` | crates/remote-codec/src/lib.rs:382-389 | That bound is exact: a printed part with a longer head, cut before the last byte of the head, is refused as too large, although the whole is not. |
| `MultipartPrinter.HiddenPartIsFound` | crates/remote-codec/src/lib.rs:374-377 | The input that shows why every stretch counts: behind a close, an unfinished part with a whole part in its body; no cut and the cut at the close deliver nothing, the cut behind the unfinished head delivers the inner body. |
| `EncoderReader.BoundedIsSmall` | crates/remote-codec/src/lib.rs:474-511 | What is kept between pushes is shorter than the maximum plus 24576 bytes. |
| `EncoderReader.ReaderNeverOverflows` | crates/remote-codec/src/lib.rs:474-511 | On any stream, read in chunks of at most 8192 bytes, the buffer bound holds between pushes and no push reports an overflow. |
| `EncoderReader.ReaderDelivers` | crates/remote-codec/src/lib.rs:474-511 | The reader with boundary "rctl" returns every body of a printed stream, in order, without an error. |
| `EncoderReader.ReadMultipartOutput` | crates/remote-codec/src/lib.rs:474-511 | The reader thread sends the access units of the run over its chunks, then the parse or read error that ended it; a receiver that hangs up gets exactly the messages before that. |
| `EncoderReader.ReceivedBodies` | crates/remote-codec/src/lib.rs:474-511 | From end to end: whatever the cut into reads of at most 8192 bytes and wherever they are interrupted, a receiver gets the bodies of the printed parts in order, then the read error if the output breaks, up to where it hangs up. |
| `AnnexB.AnnexBNalTypes` | crates/remote-codec/src/lib.rs:605-626 | Stepping 4, 3 or 1 bytes returns, in order and once each, the low five bits of the byte after every 00 00 01 that has one. |
| `AnnexB.StartsAreAllInOrder` | crates/remote-codec/src/lib.rs:605-626 | The places used are strictly increasing and are exactly the occurrences of 00 00 01 with a following byte. |
| `AnnexB.SkipStartCode` | crates/remote-codec/src/lib.rs:608-622 | No unit begins inside a start code that is stepped over whole. |
| `AnnexB.ContainsNalType` | crates/remote-codec/src/lib.rs:88-90 | The answer is yes exactly when a unit of that type is present. |
| `AnnexB.IsKeyframe` | crates/remote-codec/src/lib.rs:144-156 | A keyframe is reported exactly when some 00 00 01 is followed by a byte whose low five bits are 5. |
| `Binding.CheckAuthorization` | crates/remote-transport/src/binding.rs:130-153 | An authorization passes exactly when it has not expired, expires within 60 seconds, carries a token and the binding hash of this candidate and expiry. |
| `Binding.AuthorizesIff` | crates/remote-transport/src/binding.rs:130-153 | The same with the 60 seconds spelled out, and the refusals in their order: expired, too far ahead, the binding's own error, another hash, no token. |
| `Binding.ShapeIff` | crates/remote-transport/src/binding.rs:155-173 | A candidate has a shape exactly in four combinations of kind, source, relay node and observation; each refusal is named. |
| `Binding.IdentifiesIff` | crates/remote-transport/src/binding.rs:56-77 | An identifier exists exactly for a candidate with a shape whose texts can be encoded. |
| `Binding.IdCoversCandidate` | crates/remote-transport/src/binding.rs:56-77 | One identifier belongs to one session, device, role, kind, endpoint, source and relay node, unless SHA-256 collides on sixteen bytes of the two encodings named. |
| `Binding.BindsIff` | crates/remote-transport/src/binding.rs:104-128 | A binding hash exists exactly for a candidate that carries its own identifier and an encodable observation; each refusal is named. |
| `Binding.TokenBindingHash` | crates/remote-transport/src/binding.rs:104-128 | A hash exists only for a well-shaped candidate whose identifier is its own. |
| `Binding.BindingCoversCandidate` | crates/remote-transport/src/binding.rs:56-128 | One binding hash serves one candidate and one expiry, the relay node included, unless a named collision of SHA-256 or of its first sixteen bytes exists. |
| `ProbeReplay.ProbeReplayGuard.Validate` | crates/remote-transport/src/binding.rs:397-433 | Table and answer are those of the specified step, whose exact conditions are ChecksIff and StoresIff: nothing changes before the checks pass, then pruning, insertion and the answer. |
| `ProbeReplay.ChecksIff` | crates/remote-transport/src/binding.rs:404-413 | A probe passes the checks exactly with a valid authorization, from the role opposite to the candidate's, and with the very token of the authorization; each refusal is named. |
| `ProbeReplay.StoresIff` | crates/remote-transport/src/binding.rs:414-432 | A refused probe stores nothing; a checked one drops the expired keys, keeps the others and stores its own with its expiry, and is a replay exactly when its key was stored and has not expired. |
| `ProbeReplay.SameKeyIff` | crates/remote-transport/src/binding.rs:418-425 | Two probes share a key exactly when session, candidate, role and nonce are the same. |
| `ProbeReplay.AcceptsIff` | crates/remote-transport/src/binding.rs:397-433 | In every run, on any clock, a probe is accepted exactly when its authorization is valid, its role is opposite, it returns the token, and its key is not remembered as live. |
| `ProbeReplay.RefusedLeavesNoTrace` | crates/remote-transport/src/binding.rs:404-413 | In every run a probe refused by the checks leaves the table as it was. |
| `ProbeReplay.ReplayIff` | crates/remote-transport/src/binding.rs:397-433 | On any clock, a probe that passes the checks is refused as a replay exactly when the expiry last shown with its key has been passed neither by its own time nor by that of any checked probe since. |
| `ProbeReplay.AcceptedTwiceIff` | crates/remote-transport/src/binding.rs:397-433 | With one expiry shown for a (candidate, role, nonce), on any clock: it is accepted more than once exactly when a checked probe between two of its probes is later than that expiry. |
| `ProbeReplay.AcceptedAtMostOnce` | crates/remote-transport/src/binding.rs:397-433 | With one expiry and a clock that never goes back, it is accepted at most once in a whole run. |
| `ProbeReplay.ShorterAuthorizationReadmits` | crates/remote-transport/src/binding.rs:414-429 | With two authorizations the claim is false: a refused probe with the shorter one overwrites the expiry, and the first probe is accepted again. |
| `ProbeReplay.BackwardClockReadmits` | crates/remote-transport/src/binding.rs:414-429 | With one expiry but a clock that steps back the claim is false: a later probe for another key prunes the entry, and the same probe is accepted again at an earlier time. |
| `CallbackGate.SharedGate.TryEnter` | crates/remote-ios-ffi/src/lib.rs:91-103 | A lease is counted exactly when the gate is not closing. |
| `CallbackGate.SharedGate.DropLease` | crates/remote-ios-ffi/src/lib.rs:124-136 | A drop lowers the count and notifies exactly when it reaches zero. |
| `CallbackGate.SharedGate.StartClosing` | crates/remote-ios-ffi/src/lib.rs:105-118 | Closing is set first, and the call returns at once exactly when nothing is active. |
| `CallbackGate.DropFindsALease` | crates/remote-ios-ffi/src/lib.rs:124-136 | In every state any run reaches, a drop finds a counted lease, so the saturating subtraction never saturates. |
| `CallbackGate.RunKeepsInv` | crates/remote-ios-ffi/src/lib.rs:78-136 | Every run of any number of threads keeps the invariant: the count is the number of live leases, closers wait only on a closing gate, and none sleeps when nothing is active. |
| `CallbackGate.ReachableStates` | crates/remote-ios-ffi/src/lib.rs:78-136 | In every reachable state the count is the number of live leases, and once it is zero every waiting closer is awake and its test returns. |
| `CallbackGate.NothingAfterClose` | crates/remote-ios-ffi/src/lib.rs:923-938 | Once a close has returned, in every later state no lease is live and none is ever granted, so no callback runs. |
| `CallbackGate.HolderNeverReturns` | crates/remote-ios-ffi/src/lib.rs:105-118 | A closer that holds a lease itself never returns, in any run. |
| `CallbackGate.GrantsIff` | crates/remote-ios-ffi/src/lib.rs:91-103 | A lease is granted exactly while no close has begun, and raises the count and its thread's leases by one. |
| `CallbackGate.DropCountsOff` | crates/remote-ios-ffi/src/lib.rs:124-136 | A drop takes exactly one lease off its thread and the count, and the last one wakes every closer. |
| `CallbackGate.CloseReturnsIff` | crates/remote-ios-ffi/src/lib.rs:105-118 | A close, and each test of a woken closer, returns exactly when no thread holds a lease. |
| `QuicTransport.FfiQuicTransport.Bind` | crates/remote-ios-ffi/src/quic_transport.rs:253-259 | Binding moves Created to Bound with an endpoint, and refuses in any other state. |
| `QuicTransport.FfiQuicTransport.Connect` | crates/remote-ios-ffi/src/quic_transport.rs:703-709 | The first section of connect moves Bound to Connecting, and refuses in any other state. |
| `QuicTransport.FfiQuicTransport.Establish` | crates/remote-ios-ffi/src/quic_transport.rs:543-566 | A connection is taken over only in Connecting and not cancelled, and becomes Connected with channel and queue or Failed with neither. |
| `QuicTransport.FfiQuicTransport.Fail` | crates/remote-ios-ffi/src/quic_transport.rs:384-396 | The critical section of a failure: the new state and whether it is the first are those of the section, whose effect is FailureTakesEffect. |
| `QuicTransport.FfiQuicTransport.Close` | crates/remote-ios-ffi/src/quic_transport.rs:602-611 | Closing drops endpoint, channel and queue once, and does nothing in Closed. |
| `QuicTransport.FfiQuicTransport.Enqueue` | crates/remote-ios-ffi/src/quic_transport.rs:586-592 | A packet is taken exactly when the transport is Connected and has its queue. |
| `QuicTransport.SectionsAreSound` | crates/remote-ios-ffi/src/quic_transport.rs:380-620 | Every critical section keeps the state consistent, never moves the lifecycle back, and commits its thread to a final callback only when it moved the lifecycle there. |
| `QuicTransport.RunKeepsInv` | crates/remote-ios-ffi/src/quic_transport.rs:253-620 | Every interleaving of bind, connect, failures, close and destroy over any number of threads keeps the state, gate and callback-count invariants. |
| `QuicTransport.LifecycleOnlyForward` | crates/remote-ios-ffi/src/quic_transport.rs:86-101 | Between any two states of any run the lifecycle only moves forward. |
| `QuicTransport.ReachableStates` | crates/remote-ios-ffi/src/quic_transport.rs:86-101 | In every reachable state channel and queue are present exactly in Connected, connect and send find what they need exactly in Bound and Connected, the disconnect and closed callbacks have each run at most once, and at most one callback runs. |
| `QuicTransport.NoCallbackAfterDestroy` | crates/remote-ios-ffi/src/quic_transport.rs:758-780 | After destroy is back from the gate no state, packet, disconnect or closed callback is running and none runs in any continuation. |
| `QuicTransport.LateDisconnectWasOwed` | crates/remote-ios-ffi/src/quic_transport.rs:380-407 | A disconnect callback that runs after the close was already owed by a failure before it; a close with none owed is followed by none. |
| `QuicTransport.BindTakesEffect` | crates/remote-ios-ffi/src/quic_transport.rs:253-260 | A bind moves a created transport to Bound with its endpoint and its thread to the state callback, and changes nothing elsewhere. |
| `QuicTransport.ConnectTakesEffect` | crates/remote-ios-ffi/src/quic_transport.rs:703-709 | A connect moves a bound transport to Connecting, and changes nothing elsewhere. |
| `QuicTransport.EstablishTakesEffect` | crates/remote-ios-ffi/src/quic_transport.rs:543-566 | A channel is kept, with a queue, exactly by a connecting transport that is not cancelled; if its tasks do not start it fails and owes the disconnect. |
| `QuicTransport.FailureTakesEffect` | crates/remote-ios-ffi/src/quic_transport.rs:384-406 | A failure before Failed and Closed moves to Failed, drops channel and queue, and its thread owes the disconnect callback; a later one does nothing. |
| `QuicTransport.CloseTakesEffect` | crates/remote-ios-ffi/src/quic_transport.rs:602-620 | A close outside Closed drops everything and its thread owes the closed callback; the close of a destroy owes none. |
| `QuicTransport.DestroyTakesEffect` | crates/remote-ios-ffi/src/quic_transport.rs:758-780 | A destroy takes the handle out of the table, closes the gate, and waits exactly while a lease is live. |
| `QuicTransport.OwedCallbackRuns` | crates/remote-ios-ffi/src/quic_transport.rs:350-378 | With the gate open or a lease held, and the callback lock free, a thread that owes a final callback gets into it by its own steps and raises its count from 0 to 1. |
| `QuicTransport.CallbacksAreExact` | crates/remote-ios-ffi/src/quic_transport.rs:350-407 | In every reachable state with the gate open the counts are exact: no disconnect has run or is owed before a failure, exactly one in Failed; exactly one closed callback in Closed and none before. |
| `SignalMachine.SignalStateMachine.Begin` | apps/desktop/src/signal.rs:1315-1328 | State, expectation and result after begin_connect, allowed or refused. |
| `SignalHello.ResponseSignsChallenge` | apps/desktop/src/signal.rs:1352-1395 | A response signs its own challenge: the signature is over an input with the server's nonce and the response's nonce, identity, version, time and hashes, before the challenge expires; it fails only for its encodings. |
| `SignalHello.HelloInputInjective` | apps/desktop/src/signal.rs:1529-1560 | Equal signature inputs force equal nonces, account, device, version, time and hashes. |
| `SignalHello.HexInjective` | apps/desktop/src/signal.rs:1562-1564 | Equal hexadecimal spellings come from equal bytes, so comparing the hashes as text compares the hashes. |
| `SignalHello.MatchesIff` | apps/desktop/src/signal.rs:1396-1430 | A hello matches exactly when it repeats account, device, version, server versions and the two hashes of the response, with a connection identifier. |
| `SignalHello.FitsIff` | apps/desktop/src/signal.rs:1340-1363 | Which challenges fit: this account and device, version 1 among at most sixteen, not expired, with a nonce of 32 bytes. |
| `SignalHello.RespondsIff` | apps/desktop/src/signal.rs:1352-1395 | A fitting challenge is answered exactly when capabilities and names can be encoded, with version 1 and the client's own key and capabilities. |
| `SignalHello.HexDigits` | apps/desktop/src/signal.rs:1562-1564 | Each byte is spelled with two lower-case digits, the high one first. |
| `SignalMachine.SignalStateMachine.BuildResponse` | apps/desktop/src/signal.rs:1330-1408 | The response to a fitting challenge is returned and its expectation stored; an unfitting one fails the machine, an unencodable one leaves it as it was. |
| `SignalMachine.BuildsIff` | apps/desktop/src/signal.rs:1330-1408 | A challenge is answered, with its expectation stored, exactly when it is awaited, fits and can be encoded; otherwise the machine is unchanged or failed. |
| `SignalMachine.BuildRefusals` | apps/desktop/src/signal.rs:1330-1408 | Why a challenge is not answered, and what it leaves: not awaited, not fitting (the machine fails), not encodable (the machine stays). |
| `SignalMachine.BeginsIff` | apps/desktop/src/signal.rs:1315-1438 | A connect begins exactly from Disconnected, Failed or Reconnecting, and a reconnect exactly from Online; elsewhere nothing changes. |
| `SignalMachine.SignalStateMachine.Accept` | apps/desktop/src/signal.rs:1410-1430 | The expectation is consumed; the machine is Online exactly after a matching hello and Failed after another. |
| `SignalMachine.AcceptsIff` | apps/desktop/src/signal.rs:1410-1430 | A hello is accepted exactly while authenticating and when it matches; a mismatch fails the machine. |
| `SignalMachine.ExpectationIffAuthenticating` | apps/desktop/src/signal.rs:1295-1454 | After any sequence of calls an expectation exists exactly in Authenticating. |
| `SignalMachine.OnlineOnlyByOneAttempt` | apps/desktop/src/signal.rs:1315-1430 | After any sequence of calls, Online was reached by one attempt: a begin, a fitting challenge answered, and a hello matching that answer, with nothing else happening to the machine in between or since. |
| `SignalWorker.EstablishConnection` | apps/desktop/src/signal.rs:599-663 | Machine and result after one attempt, for everything the network can do to it. |
| `SignalWorker.EstablishedIff` | apps/desktop/src/signal.rs:599-663 | An attempt succeeds, and leaves the machine Online, exactly when a fitting challenge is answered by a matching hello and the list request goes out. |
| `SignalWorker.BeginAlwaysWorks` | apps/desktop/src/signal.rs:560-588 | begin_connect inside the loop never fails. |
| `SignalWorker.RetriesAreBounded` | apps/desktop/src/signal.rs:560-588 | After a lost connection at most max_reconnect_attempts tries happen before Online again or a stop; a stop leaves the machine failed or disconnected. |
| `SignalWorker.AttemptComesTo` | apps/desktop/src/signal.rs:599-663 | The result of an attempt is the same whatever came before it: the network's error, an unfitting challenge, a rejection, an unreadable or mismatched hello, a failed list request, or success. |
| `SignalWorker.LossesAreRetried` | apps/desktop/src/signal.rs:560-588 | A closed, timed-out or broken connection is tried again while rounds are left: after any number of rounds that lost it too one more is made, and only a full count, a cancellation, a success or another error ends the loop, each with its own count and final state. |
| `SignalWorker.OtherErrorsAreNot` | apps/desktop/src/signal.rs:89-94 | After any other error no try is made and the machine has failed. |
| `SignalWorker.RunRetries` | apps/desktop/src/signal.rs:560-588 | The inner loop computes the specified rounds, their number and how they end. |
| `SignalWorker.RunSignalWorker` | apps/desktop/src/signal.rs:509-590 | The worker's nested loops compute the specified run, for every finite behaviour of the network. |
| `SignalWorker.WorkerIsBounded` | apps/desktop/src/signal.rs:509-590 | Every run from a fresh connect makes at most the configured number of tries per lost connection, and stops at rest. |
| `SignalWorker.FirstAttemptDecides` | apps/desktop/src/signal.rs:528-556 | A first attempt that fails stops the worker without a retry; one that succeeds leaves it Online until the first period ends. |
| `SignalWorker.WorkerTriesAgain` | apps/desktop/src/signal.rs:542-588 | A connection that was established and then closed, timed out or broke is tried at least once again. |
| `SignalWorker.WorkerOnlineIsEarned` | apps/desktop/src/signal.rs:509-590 | Whenever a worker's machine is Online, one attempt in its log took it there with a matching hello. |
| `SignalWorker.DelaysDouble` | apps/desktop/src/signal.rs:317-322 | The first rounds wait the initial delay, each later one twice the one before until the maximum, and from the thirty-second on the wait stays the same. |

## Left out

- The insides of the cryptographic primitives, random generation, zeroizing and constant-time comparison: foreign libraries, modelled as functions.
- JSON canonicalisation (RFC 8785), serde decoding and base64: library code; their results are parameters.
- `RelayOpenReplayGuard` and the relay token binding: a set that only grows behind a list of field comparisons; it would add only easy members.
- The domain field of `CanonicalWriter::new` is the first field of each list, not a separate operation.
- Sockets, TLS, timeouts, task scheduling and process spawning: only the order of state changes is kept. Lock poisoning and panics are not modelled.
- `candidate_pair_id`: the same construction as the candidate identifier; the handshake takes the pair identifier as given.
- Candidate measurements (priority, round-trip time, loss, jitter): no identifier or binding covers them.
- Multipart.MultipartAccessUnitParser.Push: `checked_add` failures cannot occur on integers without bound; the limits that matter on a 64-bit `usize` are kept.
- CallbackGate.NothingAfterClose: about leases; that a callback runs only under a lease is read off the emitting functions.
- CallbackGate.HolderNeverReturns: about threads that hold a lease while they close; the repository does not say whether a callback may destroy its session.
- QuicTransport.ReachableStates: threads may start any operation at any time, also a failure before a connection exists, which allows more interleavings than the program; the second critical section of connect only decides whether to start the connect task and is absorbed by this. A packet group counts as one callback, and a callback that calls back into its own transport is not modelled.
- QuicTransport.FfiQuicTransport.Establish: whether the background tasks could be started is a parameter.
- SignalWorker.RunSignalWorker: the network's behaviour is a finite script, so every statement is about every finite beginning of a run; what happens while online is reduced to how it ends.
- Desktop UI, HTTP client, storage, capture, rendering, clipboard, file transfer and policy tables: finite tables or platform plumbing that would add only easy members.
