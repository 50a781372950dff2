# Verified models of the gateway's streaming and stateful algorithms

A Dafny 4.11 model of the parts of this repository that keep state over unbounded streams and runs, with proofs of
what they promise. `dafny verify dfyconfig.toml` checks everything.

| part of the system | modules | main results |
|---|---|---|
| drift-adaptive threshold (`driftModel.ts`) | `P2Markers`, `P2Heights`, `P2Affine`, `Quantile`, `PageHinkley`, `DriftThreshold` | marker ranks never drift from their ideal positions; heights stay sorted between the exact extremes; the estimate is the height of the marker that tracks the quantile, whatever unit and origin; the detector is the two-sided CUSUM around the exact mean; `drifts` counts entries into drift; the threshold stays clamped |
| TLS ClientHello and JA4 (`tlsFingerprint.ts`) | `Tls`, `TlsEncoding`, `Ja4`, `Ja4Wire`, `Filtering` | the parser inverts the wire encoding; the fingerprint depends on exactly the order-free, GREASE-free content, from bytes to text |
| Privacy Pass (`privacyPass.ts`) | `Hex`, `Modular`, `Oprf`, `SpentSet`, `PrivacyPass` | unblinding gives the server's own evaluation and blinding hides the nonce; exactly one output per nonce is accepted; two redemptions of one nonce are far apart |
| correlation (`math.ts`, `multi_chain_probe.py`) | `Spearman`, `Pearson`, `PearsonExact` | both coefficients lie in [-1, 1], by a counting argument over tie-averaged ranks and by Cauchy-Schwarz, and reach the ends exactly for equal or opposite orders and for lines; the matrix covers every pair once |
| Welford profiles and Sybil cohorts (`welford.ts`, `sybilCluster.ts`) | `Welford`, `Sybil`, `SybilClusters`, `Divergence`, `Contagion` | the online update is the batch definition at every split; the two-map index; exactly which cohort an address is in after any run, and whom a flag reaches |
| rhythm sessions (`rhythmManager.ts`) | `SyncPulse`, `Rhythm`, `RhythmManagers`, `DriftCompensation` | pulses are exactly the arrangements of one multiset; trust, drift and recovery over whole runs, with the exact exception |
| sealed packets (`server.ts`, `sealValidator.ts`) | `Enclave` | consecutive sequence numbers, packet counter and key ratchet over whole runs |
| delayed delivery (`wss_distributor.py`) | `Distributor`, `DeliveryOrder`, `RegularDelivery`, `DeliveryRuns`, `DistributorServer` | the public delay under every interleaving; exactly when replay and push keep broadcast order; nothing skipped |
| trust fusion (`trustEngine.ts`) | `TrustFusion` | range, order independence, monotonicity, hard gates and floors |

`Optional`, `Bounds`, `Reals`, `Sums` and `Sorting` hold shared definitions.

**Shape.** Each class of the source that updates fields is a Dafny class whose methods are proved against a function of
the inputs or of the old state, often through a ghost field holding the stream or the run so far. The laws are lemmas
about those functions. A lemma about a run quantifies over every finite run.

**Assumptions.** Floating-point numbers are reals. Hashes, HMAC, base64 with JSON, the exponential, the logarithm,
square roots, rounding to four digits, curve points and clocks are parameters. What is assumed of them is a predicate
in the `requires` of the results that need it: `Oprf.Lawful` (scalars act modulo a prime order, encoding of
non-identity elements is reversible), `Pearson.IsRoot`, `Rhythm.Decaying` (exp is 1 at 0, ascending, positive, at most
1 below 0) with `Rhythm.AboveTangent` (exp lies above its tangent at 0), `Oprf.Cyclic` (any element but the identity is a multiple of any other), `Divergence.Lawful` (exp
is positive, log ascends and turns products into sums, log 2 is at least one half).

**Where code and text disagree**, the model follows the code:

- `tlsFingerprint.ts:53` says that the signature algorithms are sorted; line 67 keeps wire order, and
  `Ja4.FingerprintExact` shows that this order is visible in the fingerprint.
- `driftModel.ts:183` says that the threshold never leaves [floor, ceil]. It is NaN for an empty stream with a warmup
  that is not positive, and in range in every other case: `DriftThreshold.ThresholdAlwaysClamped`.
- `rhythmManager.ts:11` and `:90` describe a decay of trust over time. There is none in the first thirty seconds, and
  after that it exceeds 1.5 at once. So a validation ends the session exactly when it brings timings and either comes
  that late or has a closeness to the expected rhythm below 0.3: `Rhythm.EndsExactly`.
- `rhythmManager.ts:83` promises fast fall and slow recovery. An empty list of timings leaves NaN behind, which the
  session survives and which the next rhythm replaces at face value: `Rhythm.EmptyTimingsForget`. Without empty
  lists the promise holds over every run: `Rhythm.SlowRecovery`; `Rhythm.BlankExactly` says when the stored trust is NaN.
- `sybilCluster.ts:32` groups addresses by the divergence of their profiles. Over the reals the profile distribution
  forgets mean and variance from ten samples on, and two stable profiles are near exactly when the first has fewer than
  ten samples or the second has ten (`Divergence.NearExactly`). A profile joins exactly the first represented cohort,
  for ten samples or more the first one represented by ten samples: `Contagion.IngestJoinsFirst`. So when every
  ingestion brings ten samples, flagging one address flags all (`Contagion.FlagReachesAll`).
- `wss_distributor.py:457-468` reads a client's marker to send each message once. A client is registered before its
  replay starts and the round does not wait for the replay, so lists can overlap. Starting a list for a client keeps
  its order in every continuation exactly when the list is empty, or the other task's list is finished and the new one
  starts after the last message received: `DeliveryOrder.CleanExactly`. A replay send that raises after its message went
  out leaves the marker behind, and a round that lists the message sends it again: `RegularDelivery.LateReplayRepeats`.
  With a delay of 0 a message can be skipped (`DeliveryRuns.ZeroDelaySkips`). With a positive one the round takes up
  what failed sends left out (`RegularDelivery.NothingSkipped`), except a message of a lost replay send with the marker's
  own timestamp (`RegularDelivery.NotResumed`), which needs two messages in one instant
  (`RegularDelivery.DistinctTimesResumable`).
- `trustEngine.ts:63` says that one weak signal is no automatic denial. A zero score denies exactly when the weighted
  mean is below 0.4 or the total weight is zero: `TrustFusion.ZeroScoreDenies`, `TrustFusion.WeightlessDenied`.
- `server.ts:965` renews the key of the shared session but not its sequence number, so the first packet of a new client
  there is answered as a replay exactly when an earlier client had one accepted: `Enclave.FirstSealAfterHandshake`.

## Model

| member | source | states |
|---|---|---|
| P2Markers.RanksNeverDrift | gateway/src/services/driftModel.ts:53-102 | for every stream of five or more samples: outer positions 1 and count, positions strictly increasing, desired positions ideal, lags of the inner markers in (-1,5), (-2,3), (-3,1) |
| P2Markers.StepTracks | gateway/src/services/driftModel.ts:77-101 | one sample keeps that rank invariant |
| P2Markers.CorrectionsTrack | gateway/src/services/driftModel.ts:90-101 | the three corrections in code order bring lags widened by one sample back into range; a blocked marker is held by its neighbour |
| P2Markers.DesiredOrdered | gateway/src/services/driftModel.ts:63-72 | desired positions are strictly ordered from 1 to the count |
| P2Markers.DesiredExplicit | gateway/src/services/driftModel.ts:63-72 | those positions are 1, 1 + (n-1)p/2, 1 + (n-1)p, 1 + (n-1)(1+p)/2 and n |
| P2Heights.HeightsBracketStream | gateway/src/services/driftModel.ts:53-102 | after every stream the heights are sorted and the outer two are the least and greatest sample |
| P2Heights.ExtremesBound | gateway/src/services/driftModel.ts:79-80 | those two are samples and bound all others |
| P2Heights.StepHeights | gateway/src/services/driftModel.ts:77-101 | one sample keeps the heights sorted and moves the outer two to the new extremes |
| P2Heights.AdjustHeights | gateway/src/services/driftModel.ts:91-100 | parabolic or linear, a correction keeps the heights in order |
| P2Heights.CorrectionExact | gateway/src/services/driftModel.ts:90-115 | one correction: the marker moves a place exactly when its desired position is that far away and there is room; its new height lies on the quadratic through the three markers, or, if that value is not strictly between the neighbours, on the line to the neighbour on that side |
| P2Heights.ParabolaThrough | gateway/src/services/driftModel.ts:105-111 | the interpolated value is that of any quadratic through the three markers, and there is one (`QuadraticExists`) |
| P2Heights.LinearBetween | gateway/src/services/driftModel.ts:112-115 | the linear fallback stays between the neighbouring heights |
| P2Heights.CellContains | gateway/src/services/driftModel.ts:81-84 | the search finds the cell of every sample that is not a new extreme |
| P2Heights.EarlyValueIsQuantile | gateway/src/services/driftModel.ts:118-124 | below five samples the value is an exact p-quantile: at most a share p below it, more than a share p at or below it |
| P2Heights.EarlyIndexInRange | gateway/src/services/driftModel.ts:122 | the clamps around the index never act |
| P2Heights.ValueWithinStream | gateway/src/services/driftModel.ts:118-126 | the value lies between the least and the greatest sample |
| P2Heights.ValueTracksQuantile | gateway/src/services/driftModel.ts:125 | from five samples on the value is the height of the one marker whose desired position is 1 + (n-1)p, and its position is less than three places off |
| P2Heights.FifthValueIsMedian | gateway/src/services/driftModel.ts:125 | at five samples it is the median: at most two samples below it, at least three at or below it |
| P2Affine.RunRescaled | gateway/src/services/driftModel.ts:53-115 | samples a x + b with a > 0 give the same positions and heights a q + b after every stream |
| P2Affine.ValueRescaled | gateway/src/services/driftModel.ts:118-126 | so the estimate is equivariant at every stream length |
| Quantile.P2Quantile.constructor | gateway/src/services/driftModel.ts:46-49 | a valid quantile gives an estimator of the empty stream |
| Quantile.P2Quantile.Observe | gateway/src/services/driftModel.ts:53-102 | the fields become the markers of the longer stream; a number that is not finite changes nothing |
| Quantile.P2Quantile.Update | gateway/src/services/driftModel.ts:77-101 | the loops perform one step of the marker model |
| Quantile.P2Quantile.Start | gateway/src/services/driftModel.ts:59-73 | the fifth sample sets up the markers over the sorted buffer |
| Quantile.P2Quantile.Locate | gateway/src/services/driftModel.ts:78-84 | the cell search with its break, widening the extremes |
| Quantile.P2Quantile.IncrementPositions | gateway/src/services/driftModel.ts:87-88 | exactly the positions right of the cell and every desired position advance |
| Quantile.P2Quantile.AdjustMarker | gateway/src/services/driftModel.ts:92-100 | one interior marker is corrected as modelled, all else unchanged |
| Quantile.P2Quantile.Count | gateway/src/services/driftModel.ts:51 | the number of finite samples |
| Quantile.P2Quantile.Value | gateway/src/services/driftModel.ts:118-126 | a function of the stream alone, by `P2Heights.Value` with its meaning in `ValueTracksHere` |
| Quantile.P2Quantile.ValueTracksHere | gateway/src/services/driftModel.ts:125 | from five samples on the object reports the height of its marker whose desired position is 1 + (n-1)p, which stands less than three places off |
| PageHinkley.ExcursionIsCusum | gateway/src/services/driftModel.ts:157-164 | the sum above its running minimum is the recursion S := max(0, S + w) |
| PageHinkley.CusumIsWorstRun | gateway/src/services/driftModel.ts:157-164 | and the largest sum over a run of samples ending now: no run exceeds it, one attains it |
| PageHinkley.IncrementAt | gateway/src/services/driftModel.ts:154-162 | each sample contributes its deviation from the mean up to and including it, less the tolerance |
| PageHinkley.SumsExtend | gateway/src/services/driftModel.ts:157-166 | the four accumulators give the two-sided statistic after every sample |
| PageHinkley.QuietStream | gateway/src/services/driftModel.ts:131-135 | samples within delta + eps of the running mean raise the statistic by at most eps each; with eps 0 it stays 0 |
| PageHinkley.SustainedShift | gateway/src/services/driftModel.ts:131-135 | k last samples at least delta + eps beyond the mean on one side give a statistic of at least k eps |
| PageHinkley.Detector.Observe | gateway/src/services/driftModel.ts:151-169 | the magnitude is that statistic since the last reset around the exact mean; drift means above lambda |
| PageHinkley.Detector.UpdateMean | gateway/src/services/driftModel.ts:153-154 | the incremental mean is the exact mean |
| PageHinkley.Detector.UpdateSums | gateway/src/services/driftModel.ts:156-164 | sums, running minimum and maximum move together by one deviation |
| PageHinkley.Detector.Reset | gateway/src/services/driftModel.ts:174-177 | the sums start over, the mean stays |
| DriftThreshold.DriftsCountEntries | gateway/src/services/driftModel.ts:219-232 | the event counter is the number of entries into drift over the whole stream |
| DriftThreshold.WarmupStatus | gateway/src/services/driftModel.ts:223 | the status is warmup exactly below the warmup count, with nothing counted and no reset |
| DriftThreshold.NoEarlyEntries | gateway/src/services/driftModel.ts:219-232 | no entry into drift falls within warmup |
| DriftThreshold.DriftExactly | gateway/src/services/driftModel.ts:223-231 | the status is drift exactly when warm and the statistic since the last drift exceeds lambda |
| DriftThreshold.SumsSinceLastDrift | gateway/src/services/driftModel.ts:225-228 | that statistic runs since the last sample at which the status was drift, or from the start |
| DriftThreshold.QuietNeverDrifts | gateway/src/services/driftModel.ts:219-232 | with lambda >= 0, a stream whose samples stay within delta of the running mean never enters drift |
| DriftThreshold.WarmThreshold | gateway/src/services/driftModel.ts:235-239 | once warm, the threshold is in [floor, ceil] and, for margin >= 0, between the clamped extremes of the stream |
| DriftThreshold.ThresholdAlwaysClamped | gateway/src/services/driftModel.ts:235-239 | it is a number exactly when the stream is not empty or warmup is positive, and then in [floor, ceil] |
| DriftThreshold.ThresholdExactly | gateway/src/services/driftModel.ts:235-239 | the floor below warmup; then margin times the estimate, or the bound it passes |
| DriftThreshold.ThresholdTracksQuantile | gateway/src/services/driftModel.ts:235-239 | from five samples on that is margin times the height of the marker that tracks the quantile |
| DriftThreshold.DriftAdaptiveThreshold.constructor | gateway/src/services/driftModel.ts:205-216 | starts as the empty stream's state |
| DriftThreshold.DriftAdaptiveThreshold.Observe | gateway/src/services/driftModel.ts:219-232 | status, event counter and detector reset follow the alarm function of the longer stream |
| DriftThreshold.DriftAdaptiveThreshold.UpdateStatus | gateway/src/services/driftModel.ts:223-231 | the three branches, and the reset only on drift |
| DriftThreshold.DriftAdaptiveThreshold.GetThreshold | gateway/src/services/driftModel.ts:235-239 | the threshold of the stream |
| Tls.ParseClientHello | gateway/src/services/tlsFingerprint.ts:78-147 | on every byte sequence it ends with the parse of the cursor model or with None, never reading outside the buffer |
| Tls.ReadBody | gateway/src/services/tlsFingerprint.ts:89-143 | the part after the random |
| Tls.ReadCiphers | gateway/src/services/tlsFingerprint.ts:95-99 | the cipher loop and its cursor |
| Tls.ReadVersions | gateway/src/services/tlsFingerprint.ts:117-125 | the version loop; None where the original reads past the buffer |
| Tls.ReadAlpn | gateway/src/services/tlsFingerprint.ts:128-134 | the protocol loop with its break |
| Tls.ReadSigAlgs | gateway/src/services/tlsFingerprint.ts:137-138 | the signature algorithm loop |
| Tls.ReadExtensions | gateway/src/services/tlsFingerprint.ts:109-141 | the extension loop over all types |
| TlsEncoding.ParseInvertsEncoding | gateway/src/services/tlsFingerprint.ts:78-147 | wherever a handshake starts, a well-formed encoded message parses to its report, whatever follows its extensions |
| TlsEncoding.ParseRoundTrip | gateway/src/services/tlsFingerprint.ts:78-147 | the bare message and the same message in one record give that report |
| TlsEncoding.InfoFields | gateway/src/services/tlsFingerprint.ts:95-143 | the report lists exactly the encoded ciphers, extension types, protocols and signature algorithms in wire order; SNI iff a server_name extension is there |
| TlsEncoding.ProtocolText | gateway/src/services/tlsFingerprint.ts:128-134 | a protocol of seven-bit bytes is reported as written |
| TlsEncoding.InfoVersion | gateway/src/services/tlsFingerprint.ts:115-126 | the version is the highest offered that is neither GREASE nor above TLS 1.3, else the legacy version |
| TlsEncoding.InfoLegacyVersion | gateway/src/services/tlsFingerprint.ts:101 | without the extension, the legacy version |
| TlsEncoding.BestIsHighest | gateway/src/services/tlsFingerprint.ts:119-124 | the loop's maximum is an offered eligible version that no other exceeds |
| TlsEncoding.ReadExtensionBody | gateway/src/services/tlsFingerprint.ts:112-140 | each encoded extension is read as itself |
| TlsEncoding.ReadExtensionList | gateway/src/services/tlsFingerprint.ts:109-142 | an encoded list is read extension by extension and exactly used up |
| Ja4Wire.OneFingerprint | gateway/src/services/tlsFingerprint.ts:55-147 | bytes of two messages, bare or in a record, that differ by the order of ciphers and of extensions with distinct types, or by one GREASE value among the ciphers, the extensions, the signature algorithms or the offered versions, parse and have the same fingerprint |
| Ja4Wire.ShowsHighestVersion | gateway/src/services/tlsFingerprint.ts:55-147 | a message that offers TLS 1.3 shows "13" in its fingerprint, else the label of the highest of 1.2, 1.1 and 1.0 that it offers |
| Ja4Wire.PermutedAlike | gateway/src/services/tlsFingerprint.ts:78-147 | the permuted message's report keeps version, SNI, protocols and signature algorithms |
| Ja4Wire.GreasedAlike | gateway/src/services/tlsFingerprint.ts:78-147 | so does the report of the message with a GREASE extension |
| Ja4Wire.GreasedCiphersAlike | gateway/src/services/tlsFingerprint.ts:95-99 | so does the report of the message with a GREASE cipher |
| Ja4Wire.GreasedSigAlgsAlike | gateway/src/services/tlsFingerprint.ts:136-139 | and that of the message with a GREASE signature algorithm |
| Ja4Wire.GreasedVersionsAlike | gateway/src/services/tlsFingerprint.ts:115-126 | and that of the message that offers a GREASE version |
| Ja4.Canonical | gateway/src/services/tlsFingerprint.ts:55-71 | messages equal up to order of ciphers and extensions and up to GREASE have the same fingerprint |
| Ja4.Rearrangements | gateway/src/services/tlsFingerprint.ts:56-67 | permuting ciphers or extensions, or inserting GREASE anywhere in the three lists, stays within that equivalence |
| Ja4.StripInsert | gateway/src/services/tlsFingerprint.ts:24-57 | an inserted GREASE value disappears |
| Ja4.FingerprintExact | gateway/src/services/tlsFingerprint.ts:55-71 | with a hash that does not collide here, equal fingerprints mean equal visible part, equal stripped ciphers and hashed extensions up to order, equal signature algorithms in order; and conversely |
| Ja4.PartAExact | gateway/src/services/tlsFingerprint.ts:58-60 | the visible part shows exactly the version label, SNI, both GREASE-free counts up to 99 and the ALPN code |
| Ja4.PartAShows | gateway/src/services/tlsFingerprint.ts:37-60 | the visible part place by place: transport, version label, d or i for SNI, both counts up to 99 in decimal, and the first and last character of the first protocol or 00 |
| Ja4.HashedTexts | gateway/src/services/tlsFingerprint.ts:62-69 | both hash inputs list their values in ascending order, the signature algorithms in wire order |
| Ja4.CountedValues | gateway/src/services/tlsFingerprint.ts:56-67 | counted and hashed are all values but GREASE, and of the extensions neither 0 nor 16 |
| Ja4.GreaseExactly | gateway/src/services/tlsFingerprint.ts:20-24 | GREASE is 0x0a0a + 0x1010 k for k below 16 |
| Ja4.CipherTextExact | gateway/src/services/tlsFingerprint.ts:62 | the first hash input determines the stripped ciphers up to order |
| Ja4.TextCExact | gateway/src/services/tlsFingerprint.ts:66-68 | the second determines the hashed extensions up to order and the signature algorithms in order |
| Ja4.HexListInjective | gateway/src/services/tlsFingerprint.ts:62 | a comma-joined list of four-digit groups determines the list |
| Ja4.Hex4RoundTrip | gateway/src/services/tlsFingerprint.ts:36 | four characters from which the value can be read back |
| Hex.DecodeEncode | gateway/src/services/privacyPass.ts:60-66 | bytes survive encoding and decoding |
| Hex.EncodeBytes | gateway/src/services/privacyPass.ts:60-66 | accepted text encodes back to its lower-case form |
| Hex.LowerIsBytes | gateway/src/services/privacyPass.ts:242 | two texts have one lower-case form exactly when they spell the same bytes |
| Modular.InvertCorrect | gateway/src/services/privacyPass.ts:126 | what finalize needs of the imported `invert`: modulo a prime every non-zero scalar times its inverse is 1 |
| Modular.CancelInverse | gateway/src/services/privacyPass.ts:124-129 | multiplying by the blind and by its inverse cancels |
| Oprf.OprfCorrect | gateway/src/services/privacyPass.ts:115-147 | for every input, blind and key the issuer answers iff the input does not hash to the identity, and finalizing the answer equals the server's evaluation |
| Oprf.UnblindEvaluated | gateway/src/services/privacyPass.ts:124-136 | unblinding undoes blinding under the key |
| Oprf.BlindHides | gateway/src/services/privacyPass.ts:14-19 | in a cyclic group of prime order the blinded text could come from any other nonce under some blind, so it says nothing about the nonce |
| Oprf.TokenDetermines | gateway/src/services/privacyPass.ts:98-104 | with a hash without collisions a token text determines the nonce and the element that the key made of it |
| Oprf.PreimageInjective | gateway/src/services/privacyPass.ts:98-104 | the length prefixes keep nonce and element apart in the hash input |
| Oprf.ScalarKeepsNonIdentity | gateway/src/services/privacyPass.ts:115-136 | a non-zero scalar sends only the identity to the identity |
| Oprf.DeserializeSerialized | gateway/src/services/privacyPass.ts:80-92 | serialization round-trips except for the rejected identity |
| SpentSet.Separated | gateway/src/services/privacyPass.ts:225-285 | two accepted redemptions of one nonce are at least the TTL apart or have maxSpent others between them |
| SpentSet.LedgerIsTail | gateway/src/services/privacyPass.ts:242-285 | in every run the ledger is a tail of the accepted redemptions, and what is missing has expired or been pushed out |
| SpentSet.LedgerBounded | gateway/src/services/privacyPass.ts:268-275 | it never exceeds maxSpent, and the entry evicted next has the earliest expiry |
| SpentSet.UnexpiredTail | gateway/src/services/privacyPass.ts:278-285 | pruning removes exactly a prefix of expired entries |
| SpentSet.PruneExactly | gateway/src/services/privacyPass.ts:278-285 | a minute after the last pruning exactly the unexpired entries stay, before that all do |
| SpentSet.FreshAccepted | gateway/src/services/privacyPass.ts:242-259 | a genuine token whose nonce was never accepted is accepted |
| SpentSet.ExpiredForgotten | gateway/src/services/privacyPass.ts:278-285 | a minute after the last pruning a nonce is accepted again once all its redemptions are TTL old |
| PrivacyPass.HonestTokenAccepted | gateway/src/services/privacyPass.ts:115-260 | blind, batch evaluation and finalize give a token accepted the first time its nonce is redeemed, in any letter case, after any run |
| PrivacyPass.PresentHonest | gateway/src/services/privacyPass.ts:225-256 | any letter case of nonce and output passes the format checks and the comparison |
| PrivacyPass.GenuineExact | gateway/src/services/privacyPass.ts:249-254 | the comparison holds exactly when the presented text is the evaluation of the nonce, in any letter case |
| PrivacyPass.OneOutput | gateway/src/services/privacyPass.ts:249-254 | for one nonce, however spelled, at most one output text is ever genuine, up to letter case |
| PrivacyPass.EvaluateAllAt | gateway/src/services/privacyPass.ts:219 | a batch answers each element as if alone |
| PrivacyPass.PrivacyPassIssuer.constructor | gateway/src/services/privacyPass.ts:203-209 | an issuer with an empty ledger and zero counters |
| PrivacyPass.PrivacyPassIssuer.IssueBatch | gateway/src/services/privacyPass.ts:212-222 | all or nothing, with the issued count |
| PrivacyPass.PrivacyPassIssuer.Redeem | gateway/src/services/privacyPass.ts:225-260 | the ledger after all attempts decides; the formats are 16 to 128 and 96 hexadecimal digits, a spent nonce is answered as spent, and what remains is accepted exactly when the output spells the evaluation of the nonce in any letter case |
| PrivacyPass.PrivacyPassIssuer.Consume | gateway/src/services/privacyPass.ts:242-259 | the part after the format checks; accepted only if the output is the evaluation of the nonce byte for byte, invalid only if it is not |
| PrivacyPass.PrivacyPassIssuer.MarkSpent | gateway/src/services/privacyPass.ts:268-275 | first-in eviction, then the entry |
| PrivacyPass.PrivacyPassIssuer.PruneIfDue | gateway/src/services/privacyPass.ts:277-285 | at most once a minute the expired entries go and the others keep their order |
| Spearman.SpearmanRankCorrelation | gateway/src/utils/math.ts:55-71 | the loop computes the coefficient, zero for short or unequal inputs |
| Spearman.RhoInRange | gateway/src/utils/math.ts:55-71 | in [-1, 1] for all inputs, ties included |
| Spearman.RanksSum | gateway/src/utils/math.ts:76-83 | tie-averaged ranks sum to n(n+1)/2 |
| Spearman.RanksSpread | gateway/src/utils/math.ts:76-83 | their centred squares sum to at most n(n^2-1)/12, with equality exactly when there are no ties |
| Spearman.RankIsStanding | gateway/src/utils/math.ts:76-83 | twice the centred rank is the number of smaller elements less the number of larger ones |
| Spearman.IndexOfAscending | gateway/src/utils/math.ts:79 | the first index in the sorted copy counts the smaller elements |
| Spearman.EnergyBound | gateway/src/utils/math.ts:76-83 | the bound in integers, by induction over inserted elements, attained exactly without ties |
| Spearman.CrossBound | gateway/src/utils/math.ts:76-83 | the cross terms of one insertion |
| Spearman.TriangleSum | gateway/src/utils/math.ts:76-83 | comparisons around a triangle, summed |
| Spearman.RhoSymmetric | gateway/src/utils/math.ts:55-71 | symmetric in its arguments |
| Spearman.RhoIsOne | gateway/src/utils/math.ts:55-71 | 1 exactly for equal rank vectors |
| Spearman.RhoIsMinusOne | gateway/src/utils/math.ts:55-71 | -1 exactly for two oppositely ordered sequences of one length, at least 2, without ties |
| Spearman.RhoReversed | gateway/src/utils/math.ts:55-71 | the coefficient of two opposite orders without ties, of which `RhoIsMinusOne` is the full form |
| Spearman.RanksMapped | gateway/src/utils/math.ts:76-83 | ranks do not change under a strictly increasing map |
| Spearman.RhoMapped | gateway/src/utils/math.ts:55-71 | nor does the coefficient |
| Pearson.CorrelationInRange | probe/multi_chain_probe.py:473-484 | in [-1, 1] for inputs of any two lengths |
| Pearson.NumeratorBound | probe/multi_chain_probe.py:479-481 | Cauchy-Schwarz over the loop sums |
| PearsonExact.ExtremesExactly | probe/multi_chain_probe.py:473-484 | above the guard, 1 exactly when one series is an increasing affine image of the other and -1 exactly for a falling one: the equality case of Cauchy-Schwarz |
| PearsonExact.CorrelationRescaled | probe/multi_chain_probe.py:473-484 | another unit or origin keeps the coefficient, a negative factor turns its sign |
| PearsonExact.CorrelationSymmetric | probe/multi_chain_probe.py:473-484 | symmetric for equal lengths |
| PearsonExact.SelfIsOne | probe/multi_chain_probe.py:473-484 | a series that is not flat correlates with itself perfectly |
| PearsonExact.ConstantIsZero | probe/multi_chain_probe.py:482-483 | a constant series correlates with nothing |
| PearsonExact.FewAreZero | probe/multi_chain_probe.py:475-476 | nor do fewer than five samples |
| Pearson.MixedSum | probe/multi_chain_probe.py:479-481 | the quadratic form of the three sums is never negative |
| Pearson.AllPairsOnce | probe/multi_chain_probe.py:498-500 | the nested loops visit each unordered pair once, n(n-1)/2 in all |
| Pearson.RowsPairs | probe/multi_chain_probe.py:498-500 | so does every prefix of the outer loop |
| Pearson.Snapshot.MaximumIsReached | probe/multi_chain_probe.py:506-507 | the reported maximum bounds every \|r\| and is one of them |
| Pearson.Snapshot.SyncsExact | probe/multi_chain_probe.py:508-509 | the reported pairs are exactly those with \|r\| > 0.85 |
| Pearson.Snapshot.MatrixComplete | probe/multi_chain_probe.py:504-505 | one entry per pair iff no two pairs spell the same key |
| Pearson.Snapshot.MatrixKeys | probe/multi_chain_probe.py:504-505 | the keys are those of the visited pairs |
| Pearson.Snapshot.MatrixEntries | probe/multi_chain_probe.py:504-505 | with distinct keys every entry is the rounded correlation of its pair |
| PearsonExact.ReportedPair | probe/multi_chain_probe.py:486-510 | what the report says of two chains: the coefficient of their latest samples under their names, a sync pair exactly above 0.85 either way, never above the maximum |
| PearsonExact.LockstepReported | probe/multi_chain_probe.py:486-510 | two chains whose latest samples lie on a rising line are reported as a pair with coefficient 1 |
| Pearson.CorrelationMatrix.Feed | probe/multi_chain_probe.py:461-466 | a bounded buffer that drops its oldest sample |
| Pearson.ShortestIsLeast | probe/multi_chain_probe.py:490 | the common length is one that no buffer falls short of and one buffer has |
| Pearson.CorrelationMatrix.ShortestBuffer | probe/multi_chain_probe.py:490 | the loop finds that length |
| Pearson.CorrelationMatrix.Compute | probe/multi_chain_probe.py:486-520 | a report exactly from ten samples on: matrix, maximum and pairs over all pairs of the buffers as they are |
| Pearson.CorrelationMatrix.VisitRow | probe/multi_chain_probe.py:499-509 | the inner loop |
| Pearson.CorrelationMatrix.CorrelatePair | probe/multi_chain_probe.py:501-503 | the correlation of the last samples of both buffers |
| Welford.WelfordIsBatch | gateway/src/welford.ts:12-18 | after any stream the mean is sum over count and M2 the sum of squared deviations from it |
| Welford.UpdateBatch | gateway/src/welford.ts:12-18 | one update is one longer batch |
| Welford.SplitAnywhere | gateway/src/welford.ts:54-65 | saving and restoring at any point of a stream leaves the final profile as it was |
| Welford.SnapshotRoundTrip | gateway/src/welford.ts:54-65 | a profile survives iff it has two samples or no spread |
| Welford.WelfordProfile.constructor | gateway/src/welford.ts:8-10 | the profile of the empty stream |
| Welford.WelfordProfile.FromSnapshot | gateway/src/welford.ts:59-65 | any snapshot gives the profile it stands for, and updates go on from there |
| Welford.WelfordProfile.HoldsBatch | gateway/src/welford.ts:12-18 | a new object holds the batch profile of its values |
| Welford.WelfordProfile.ResumesBatch | gateway/src/welford.ts:54-65 | an object restored from a stream's snapshot holds the batch profile of that stream and its own values |
| Welford.WelfordProfile.Update | gateway/src/welford.ts:12-18 | the fields stay the profile of the longer stream |
| Welford.WelfordProfile.ToSnapshot | gateway/src/welford.ts:54-56 | count, mean and Bessel-corrected variance of that profile |
| Sybil.AlwaysIndexed | gateway/src/services/sybilCluster.ts:53-169 | in every reachable state a record with a cohort is a member of it with at least five samples, and ids are 1, 2, 3, ... |
| Contagion.AlwaysSettled | gateway/src/services/sybilCluster.ts:122-123 | in every reachable state a record has a cohort exactly when its profile has at least five samples |
| Contagion.IngestRecords | gateway/src/services/sybilCluster.ts:53-72 | what an ingestion does to the records: the new samples are in, and from ten thousand records on exactly those not seen for a day are removed |
| Contagion.IngestJoins | gateway/src/services/sybilCluster.ts:122-143 | an ingestion that leaves five samples or more puts the address into the first cohort whose first stable member is nearer than 0.15, or a new one |
| Contagion.RepresentativeIsFirst | gateway/src/services/sybilCluster.ts:145-151 | the representative is the first listed member with a record of five samples |
| Contagion.IngestJoinsFirst | gateway/src/services/sybilCluster.ts:122-143 | with the divergence of welford.ts that is, also afterwards, the first represented cohort, for ten samples the first represented by ten; another address shares the cohort exactly when that is its cohort |
| Contagion.FlagReachesAll | gateway/src/services/sybilCluster.ts:78-96 | in every run whose ingestions bring ten samples or more all addresses share one cohort: flagging one flags and counts all |
| Contagion.SmallStartSeparates | gateway/src/services/sybilCluster.ts:53-143 | a reachable state in which two addresses of ten samples are in two cohorts and flagging one does not flag the other |
| Contagion.FlagCounts | gateway/src/services/sybilCluster.ts:78-96 | the count returned: the listed members that have a record, 1 without a cohort, 0 without a record |
| Contagion.NeverRepeats | gateway/src/services/sybilCluster.ts:132-142 | no address is ever listed twice in one cohort |
| Sybil.AssignIndexed | gateway/src/services/sybilCluster.ts:122-143 | assignment keeps that index |
| Sybil.EvictIndexed | gateway/src/services/sybilCluster.ts:162-169 | so does eviction |
| Sybil.IngestIndexed | gateway/src/services/sybilCluster.ts:53-72 | so does ingestion |
| Sybil.FlagIndexed | gateway/src/services/sybilCluster.ts:78-94 | so does flagging |
| Sybil.FlagSpreads | gateway/src/services/sybilCluster.ts:78-94 | flagging flags exactly the address and the listed members of its cohort, among them every record of that cohort; no flag is lost, no cohort changes |
| Sybil.StaysListed | gateway/src/services/sybilCluster.ts:122-143 | an assigned record stays on its previous cohort's list exactly when it stays in that cohort or founds a new one |
| Sybil.FlagStays | gateway/src/services/sybilCluster.ts:53-118 | one operation keeps a flag unless it removes the record |
| Sybil.FlagStaysForRun | gateway/src/services/sybilCluster.ts:53-118 | so does every run without clear and eviction of that record |
| Sybil.IdsNeverReused | gateway/src/services/sybilCluster.ts:140-142 | over every run without a clear all cohort ids are distinct, earlier ones stay, and those founded since lie above the starting counter |
| SybilClusters.SybilCluster.constructor | gateway/src/services/sybilCluster.ts:48-51 | the state of the empty run |
| SybilClusters.SybilCluster.AlwaysIndexedHere | gateway/src/services/sybilCluster.ts:53-169 | after any run the object's index is right |
| SybilClusters.SybilCluster.AlwaysSettledHere | gateway/src/services/sybilCluster.ts:122-123 | after any run the object's records have cohorts exactly from five samples on |
| SybilClusters.SybilCluster.FlagStaysHere | gateway/src/services/sybilCluster.ts:53-118 | a record flagged at any point of the run still is unless an operation since removed it |
| SybilClusters.SybilCluster.Ingest | gateway/src/services/sybilCluster.ts:53-72 | the run gets one ingestion longer; the address has its new samples, and a cohort exactly from five on; the other records stay unless removed as a day old |
| SybilClusters.SybilCluster.AssignCohort | gateway/src/services/sybilCluster.ts:122-143 | first near cohort or a new one |
| SybilClusters.SybilCluster.IsNear | gateway/src/services/sybilCluster.ts:126-130 | the test against the representative |
| SybilClusters.SybilCluster.EvictOld | gateway/src/services/sybilCluster.ts:162-169 | the result does not depend on the order of the visit |
| SybilClusters.SybilCluster.Flag | gateway/src/services/sybilCluster.ts:78-94 | the run gets one flagging longer; the address and everyone with its cohort are flagged, no record comes or goes, and the count is returned |
| SybilClusters.SybilCluster.FlagCohort | gateway/src/services/sybilCluster.ts:80-93 | the branches of flagging |
| SybilClusters.SybilCluster.IsFlagged | gateway/src/services/sybilCluster.ts:96-98 | whether the run so far has left the address flagged |
| SybilClusters.SybilCluster.FlagAll | gateway/src/services/sybilCluster.ts:88-93 | flags and counts exactly the members that have records |
| SybilClusters.SybilCluster.Clear | gateway/src/services/sybilCluster.ts:110-114 | the run gets one clear longer and both maps are empty |
| SybilClusters.VisitOne | gateway/src/services/sybilCluster.ts:163-168 | one visited record more is one expired record dropped or nothing |
| Divergence.DistributionForgets | gateway/src/welford.ts:38-51 | all profiles with ten samples or more have one and the same distribution |
| Divergence.BinStandard | gateway/src/welford.ts:41-49 | an entry depends on bins and sigmas alone |
| Divergence.DistributionNonNegative | gateway/src/welford.ts:38-51 | no entry is negative |
| Divergence.DistributionRatios | gateway/src/welford.ts:38-51 | a shaped distribution has twenty entries that sum to 1, in the ratios of the standard normal density at the bin centres -2.85, -2.55, ..., 2.85 |
| Divergence.KlSelf | gateway/src/welford.ts:69-79 | a distribution does not diverge from itself |
| Divergence.KlFromZeros | gateway/src/welford.ts:69-79 | from the all-zero distribution nothing diverges by more than zero |
| Divergence.SameShapeDistance | gateway/src/services/sybilCluster.ts:153-160 | stable profiles that both have ten samples, or both not, are at distance zero |
| Divergence.UnshapedDistance | gateway/src/services/sybilCluster.ts:153-160 | from a profile with five to nine samples no stable profile is farther than zero |
| Divergence.UnstableDistance | gateway/src/services/sybilCluster.ts:153-154 | a profile with fewer than five samples is at distance 1 from every profile |
| Divergence.ShapedDistance | gateway/src/services/sybilCluster.ts:153-160 | from a profile with ten samples every stable one with fewer is at least 0.2 away |
| Divergence.LargeEntry | gateway/src/welford.ts:38-51 | some bin of a profile with ten samples holds at least a twentieth |
| Divergence.NearExactly | gateway/src/services/sybilCluster.ts:129-130 | of two stable profiles the first is within the threshold of the second exactly when it has fewer than ten samples or the second has ten |
| Divergence.JoinsFirstEligible | gateway/src/services/sybilCluster.ts:122-143 | a stable profile joins exactly the first cohort with a representative, one with ten samples if it has ten itself, and founds a new one exactly when there is none |
| Divergence.CohortsForget | gateway/src/services/sybilCluster.ts:122-138 | so the cohort found for a stable profile depends only on whether it has ten samples |
| Divergence.ToDistribution | gateway/src/welford.ts:38-51 | the loop fills the distribution |
| Divergence.KlDivergence | gateway/src/welford.ts:69-79 | the loop sums the divergence; None where lengths differ |
| SyncPulse.ShuffleExact | gateway/src/services/rhythmManager.ts:31-37 | the shuffles of up to 32 elements over all digests are exactly the rearrangements of the sequence |
| SyncPulse.ShuffleReaches | gateway/src/services/rhythmManager.ts:34-37 | a digest for every rearrangement |
| SyncPulse.PulseShape | gateway/src/services/rhythmManager.ts:29-40 | every pulse arranges one multiset fixed by the digest before the shuffle; total within 12000 to 12784, delays within 150 to 1399 |
| SyncPulse.DelayReaches | gateway/src/services/rhythmManager.ts:40 | every jitter of 0 to 49 occurs for every digit, and only the byte at the digit matters |
| SyncPulse.DelaysOfDigits | gateway/src/services/rhythmManager.ts:40 | 150 microseconds a unit plus that byte modulo fifty |
| SyncPulse.ShuffleMapped | gateway/src/services/rhythmManager.ts:34-40 | shuffling and mapping to delays commute |
| SyncPulse.ShuffleInPlace | gateway/src/services/rhythmManager.ts:34-37 | the in-place swaps are the shuffle function |
| SyncPulse.MakePulse | gateway/src/services/rhythmManager.ts:29-40 | shuffle of the base sequence, then delays |
| Rhythm.ValidatedSound | gateway/src/services/rhythmManager.ts:67-116 | what survives a validation has trust in [0.3, 1] or NaN, drift in [1, 2], positive expected timings; NaN exactly for empty timings |
| DriftCompensation.OffBy | gateway/src/services/rhythmManager.ts:70-107 | a rhythm with relative error x against pulse times drift: trust falls at once to exp(-x^2/0.045) or rises towards it by 0.02, less 0.05 a second after more than thirty; drift grows by a tenth of the error above 0.05, shrinks below 0.02 |
| DriftCompensation.PerfectRhythm | gateway/src/services/rhythmManager.ts:70-88 | pulse times drift itself has deviation 0 and leaves trust full or 0.02 higher |
| DriftCompensation.RelativeError | gateway/src/services/rhythmManager.ts:70-77 | timings off by one factor 1 + x have average deviation |x|, however many they are |
| DriftCompensation.DriftCatchesUp | gateway/src/services/rhythmManager.ts:103-104 | each trusted validation of a uniformly slower client closes a tenth of the gap |
| DriftCompensation.InStepStays | gateway/src/services/rhythmManager.ts:59-123 | a client that plays its pulse and is never silent for more than thirty seconds keeps its session and full trust over every run |
| Rhythm.SlowRise | gateway/src/services/rhythmManager.ts:79-88 | trust ends at most 0.02 above what it was and above what the rhythm earned |
| Rhythm.CloserIsTrusted | gateway/src/services/rhythmManager.ts:72-88 | a smaller average deviation never ends with less trust |
| Rhythm.DriftDirection | gateway/src/services/rhythmManager.ts:103-107 | drift grows only under a trusted rhythm that deviates by more than 0.05, and shrinks only under a trusted one that deviates by less than 0.02 |
| Rhythm.DriftRecovers | gateway/src/services/rhythmManager.ts:103-107 | through a quiet stretch trust stays above 0.9 and drift falls by at least 0.005 per validation until it is 1, which two hundred always reach |
| Rhythm.EndsExactly | gateway/src/services/rhythmManager.ts:79-116 | a validation ends the session exactly when it brings timings and comes after more than thirty seconds or with closeness below 0.3; before that there is no decay (an empty validation leaves NaN instead, see `EmptyTimingsForget`) |
| Rhythm.VerdictExactly | gateway/src/services/rhythmManager.ts:109-122 | valid from 0.3, asked below 0.7, deleted below 0.3; NaN is none of these |
| Rhythm.EmptyTimingsForget | gateway/src/services/rhythmManager.ts:72-88 | empty timings survive as NaN and the next perfect rhythm gives full trust |
| Rhythm.BlankExactly | gateway/src/services/rhythmManager.ts:59-116 | over every run the stored trust is NaN exactly when the session's last event was an empty validation |
| Rhythm.SlowRecovery | gateway/src/services/rhythmManager.ts:59-116 | over every run of non-empty validations trust rises by at most 0.02 for each |
| Rhythm.InterrogationLasts | gateway/src/services/rhythmManager.ts:109-117 | leaving interrogation takes at least (0.7 - trust) / 0.02 validations |
| RhythmManagers.RhythmState.Update | gateway/src/services/rhythmManager.ts:67-107 | the record's fields after one validation |
| RhythmManagers.RhythmState.AverageOf | gateway/src/services/rhythmManager.ts:67-77 | the loop's average relative deviation; none for no timings |
| RhythmManagers.RhythmManager.GenerateSyncPulse | gateway/src/services/rhythmManager.ts:29-53 | the pulse of the digest and a fresh session with full trust |
| RhythmManagers.RhythmManager.CheckSession | gateway/src/services/rhythmManager.ts:64-122 | one record updated or removed, every other session untouched |
| RhythmManagers.RhythmManager.ValidateRhythm | gateway/src/services/rhythmManager.ts:59-123 | the sessions are those of the run so far and the verdict that of the session, also for an unknown one |
| RhythmManagers.RhythmManager.GetDriftAdjustment | gateway/src/services/rhythmManager.ts:128-130 | between 1 and 2, and 1 without a session |
| RhythmManagers.RhythmManager.GetTrustStatus | gateway/src/services/rhythmManager.ts:132-134 | in [0, 1]; 0 exactly without a session or after an empty validation |
| Enclave.AcceptedConsecutive | gateway/server.ts:722-770 | over every run the accepted sequence numbers of a session are 1, 2, 3, ... and the stored one is the last |
| Enclave.CounterIsModulo | gateway/server.ts:756-766 | the packet counter is the number accepted since the handshake modulo 50 |
| Enclave.KeyChanges | gateway/server.ts:755-768 | a key changes exactly by a handshake for it and with every 50th accepted packet |
| Enclave.CyclesExactly | gateway/server.ts:755-768 | a ratchet cycle is counted with every 50th packet accepted since the handshake, and only then |
| Enclave.AcceptedExactly | gateway/server.ts:716-753 | a packet is accepted iff its session exists and its seal decodes, is at most 35 seconds old and 30 ahead, carries the next number and the right signature |
| Enclave.ReplayRejected | gateway/server.ts:731-743 | a seal with an accepted number is answered as a replay and bans the sender |
| Enclave.BannedExactly | gateway/server.ts:733-743 | after any run the route has banned exactly the addresses that sent a packet answered as a replay |
| Enclave.VerdictMeaning | gateway/src/services/sealValidator.ts:28-75 | trust gains exactly by a valid seal, 0.02 below trust 0.7 and 0.05 from it on; the costly check is asked exactly of invalid seals and below 0.7; what each kind of invalid seal costs |
| Enclave.FirstSealAfterHandshake | gateway/server.ts:963-965 | the first seal after a handshake is answered as a replay iff its session had a packet accepted before |
| Enclave.NextEntry | gateway/server.ts:755-766 | what one event does to one session's key and counter |
| Enclave.EnclaveServer.Establish | gateway/server.ts:962-965 | the fresh session and the shared default both get the secret with counter zero |
| Enclave.EnclaveServer.Handle | gateway/server.ts:709-770 | the maps follow the run and the response is that of the model |
| Distributor.PublicDelay | probe/wss_distributor.py:386-473 | under every interleaving the buffer stays bounded and in order and no public client is sent a message younger than the delay |
| Distributor.NextShaped | probe/wss_distributor.py:346-473 | every step keeps the references of replays and of the push round valid |
| Distributor.NextBuffer | probe/wss_distributor.py:427 | every step keeps the buffer bounded and in time and broadcast order |
| Distributor.BufferKeepsLatest | probe/wss_distributor.py:427 | after every run the buffer is exactly the latest broadcasts, as many as there were or as fit |
| Distributor.NextDelayed | probe/wss_distributor.py:386-473 | every step keeps all that is waiting or sent to public clients old enough |
| Distributor.DueExact | probe/wss_distributor.py:463-464 | a round lists exactly the buffered messages past the marker and old enough |
| Distributor.OldPrefixExact | probe/wss_distributor.py:387-391 | a replay takes exactly the buffered messages that are old enough |
| DeliveryOrder.CleanExactly | probe/wss_distributor.py:365-375 | an event that starts a replay or a push turn for a client is clean, that is, starts after the other list has ended and after all that was received, exactly when no continuation without further starts breaks broadcast order |
| DeliveryOrder.CleanInOrder | probe/wss_distributor.py:386-473 | in a run of clean starts a public client receives messages in broadcast order, none twice |
| DeliveryOrder.UncleanBreaks | probe/wss_distributor.py:365-375 | after a start that is not clean one or two sends break the order |
| DeliveryOrder.TwoListsBreak | probe/wss_distributor.py:461-468 | replay and push under way at once can always break the order |
| DeliveryOrder.FlightNext | probe/wss_distributor.py:386-473 | one clean event keeps both lists in order and behind what was received |
| RegularDelivery.RegularOrder | probe/wss_distributor.py:386-473 | a client whose replay starts before anything was sent, is not taken by a round before its replay ends, and is replayed to only while registered receives replayed and pushed messages in broadcast order, none twice, whatever disconnects, fails or times out, except a replay send that raises after its message went out |
| RegularDelivery.LateReplayRepeats | probe/wss_distributor.py:393-397 | the exception: after such a send a round that lists the message does not start cleanly, so (`UncleanBreaks`) a continuation sends it twice |
| RegularDelivery.RegularIsClean | probe/wss_distributor.py:393-395 | such a run is clean, because the marker is the time of the last message received |
| RegularDelivery.PushOrder | probe/wss_distributor.py:451-473 | a client for which no replay was started receives messages in broadcast order, none twice |
| RegularDelivery.NothingSkipped | probe/wss_distributor.py:461-468 | with a positive delay a client of a regular run has received every buffered message broadcast before the last one it received, whatever disconnects, fails or times out, unless a replay send was lost in the instant of the marker |
| RegularDelivery.NotResumed | probe/wss_distributor.py:463-464 | such a message, not above the marker, is never listed again |
| RegularDelivery.DistinctTimesResumable | probe/wss_distributor.py:386-397 | in a regular run whose buffered messages never share a timestamp every replay send may fail: the exception cannot occur |
| RegularDelivery.TurnCatchesUp | probe/wss_distributor.py:461-468 | a client whose turn has nothing left to send has received everything buffered up to the cutoff of the round |
| RegularDelivery.AlwaysGapless | probe/wss_distributor.py:461-468 | over such runs: up to its marker, and during its turn up to the cutoff, the client has received everything buffered or waits for it; nothing buffered before the last message received is missing |
| DeliveryRuns.ReplayCanDuplicate | probe/wss_distributor.py:365-375 | a reachable state in which the round takes a client before its replay has ended, and a continuation that sends one message twice |
| DeliveryRuns.ZeroDelaySkips | probe/wss_distributor.py:463-464 | with delay 0 a regular run without failures that skips a buffered message |
| DistributorServer.PhoenixWSSDistributor.Promises | probe/wss_distributor.py:346-473 | the object's buffer, deliveries and clients of regular runs keep the delay and the order after any run |
| DistributorServer.PhoenixWSSDistributor.SkipsNothing | probe/wss_distributor.py:461-468 | and skip nothing buffered when their replay sends are resumable |
| DistributorServer.PhoenixWSSDistributor.constructor | probe/wss_distributor.py:81 | the state of the empty run |
| DistributorServer.PhoenixWSSDistributor.Broadcast | probe/wss_distributor.py:400-427 | the run gets one broadcast longer; the buffer stays bounded and sorted and ends with the stamped message |
| DistributorServer.PhoenixWSSDistributor.Register | probe/wss_distributor.py:365 | the run gets one registration longer; the new client has received nothing |
| DistributorServer.PhoenixWSSDistributor.StartReplay | probe/wss_distributor.py:387-391 | the run gets one start of a replay longer: it lists exactly the buffered messages that are the delay old, in order |
| DistributorServer.PhoenixWSSDistributor.TakeOld | probe/wss_distributor.py:389-391 | the loop takes the prefix before the first message that is too young |
| DistributorServer.PhoenixWSSDistributor.SendReplay | probe/wss_distributor.py:392-397 | the run gets one replay send longer; what leaves the server is the head of the replay and at least the delay old, and it leaves unless the send is lost |
| DistributorServer.PhoenixWSSDistributor.StartPush | probe/wss_distributor.py:454-460 | the run gets one round longer, with its cutoff fixed |
| DistributorServer.PhoenixWSSDistributor.NextClient | probe/wss_distributor.py:461-473 | the run gets one turn longer, with exactly the buffered messages between the client's marker and the cutoff; the end of the round drops the clients whose sends failed |
| DistributorServer.PhoenixWSSDistributor.TakeDue | probe/wss_distributor.py:463-464 | the filter loop |
| DistributorServer.PhoenixWSSDistributor.SendPush | probe/wss_distributor.py:465-471 | the run gets one push send longer; what leaves the server is the head of the turn and at least the delay old, and nothing leaves when the send is lost |
| DistributorServer.PhoenixWSSDistributor.SendPaying | probe/wss_distributor.py:439-441 | the run gets one immediate send longer; only that client receives anything |
| DistributorServer.PhoenixWSSDistributor.Disconnect | probe/wss_distributor.py:380 | the run gets one disconnection longer; only that client leaves |
| TrustFusion.FusedRange | gateway/src/services/trustEngine.ts:66-76 | the fused score is in [0, 1], at most halfway between the weakest score and 1, at least the moderated weakest score; the clamp never acts; without weight it is 0 |
| TrustFusion.SingleSignal | gateway/src/services/trustEngine.ts:66-83 | a single signal of score x: ALLOW iff x(1+x) >= 1.4, STEP_UP iff 0.8 <= x(1+x) < 1.4, SHADOW_LIMIT iff 0.4 <= x(1+x) < 0.8 |
| TrustFusion.TwoSignals | gateway/src/services/trustEngine.ts:66-76 | two signals: their mean by weight times half of one plus the weaker score |
| TrustFusion.BandsExactly | gateway/src/services/trustEngine.ts:78-83 | the bands at 0.7, 0.4 and 0.2 |
| TrustFusion.NoSoftSignals | gateway/src/services/trustEngine.ts:66-68 | without soft signals and failing gates it is ALLOW with score 1 |
| TrustFusion.ReasonsListed | gateway/src/services/trustEngine.ts:108-109 | the reasons are those of all signals, each under its signal's name |
| TrustFusion.OrderIrrelevant | gateway/src/services/trustEngine.ts:92-111 | a permutation of the signals changes neither score nor decision |
| TrustFusion.RaisingHelps | gateway/src/services/trustEngine.ts:92-111 | raising any scores, soft or hard, lowers neither the fused score nor the decision |
| TrustFusion.HardFailExact | gateway/src/services/trustEngine.ts:92-104 | denial by gate iff some hard signal fails, with the reasons of the first one that does |
| TrustFusion.AllowFloor | gateway/src/services/trustEngine.ts:66-111 | ALLOW implies that every soft signal scored at least 0.4 |
| TrustFusion.ZeroScoreDenies | gateway/src/services/trustEngine.ts:66-83 | with a zero score among the soft signals: DENY iff the weighted mean is below 0.4 or there is no weight |
| TrustFusion.WeightlessDenied | gateway/src/services/trustEngine.ts:70-76 | soft signals without weight are denied whatever they score |
| TrustFusion.WeakestAt | gateway/src/services/trustEngine.ts:72 | the weakest score is some soft signal's score |
| TrustFusion.FuseRaised | gateway/src/services/trustEngine.ts:70-76 | the fusion is monotone in the weighted sum and the weakest score |

## Left out

- Rounding, overflow, infinities and NaN of floating-point numbers, except where a row above names NaN or a number that is not finite.
- The `RangeError`s of the two constructors in `driftModel.ts` are preconditions; the getters `ready`, `status`, `count`, `drifts` and `drift` only read a field.
- The marker arrays `q`, `n`, `np`, `dn`, `init` and the time buffers are fields of type `seq` that the methods reassign, so aliasing of those arrays is not captured.
- The internals of SHA-256, SHA-384, HMAC, ML-KEM, P-384 and hash-to-curve; SHA-256 and HMAC results are arbitrary functions, and base64 with JSON is one partial function.
- `tlsFingerprint.ts`: the record and handshake length bytes, which the code does not read; handshakes split over several records; `resolveTlsFp` and its header checks.
- `privacyPass.ts`: random scalars and key parsing (a scalar is a parameter); constant-time comparison; run results assume a clock that does not go back and maxSpent of at least 1.
- SpentSet.Separated: nothing is promised for maxSpent below 1, where the code still keeps one entry.
- `multi_chain_probe.py`: the emit interval, the lock, the timestamp buffers and printing; `round` is an arbitrary function.
- `welford.ts`: `compareToProfile`, which adds an empirical histogram.
- `sybilCluster.ts`: the stored fingerprint, statistics and cohort size; records are values in the map, so the sharing of record objects is not captured; a cohort may still list a record that has moved on (`Sybil.StaysListed` says when), so the index is stated from record to cohort only.
- `rhythmManager.ts`: `clientNoiseProfile`, which stays empty in this file; timings that are not numbers; the HMAC that gives the digest.
- `server.ts`: expiry and eviction of session keys and sequence numbers, so runs are without them; the proof-of-work or token gate after acceptance; banning middleware, logging and metrics other than the ratchet counter; the sum of the noise header is part of an arbitrary key evolution.
- `sealValidator.ts`: `shouldTriggerArgon2`; the trust lookup is a parameter.
- `wss_distributor.py`: enrichment, signing, logging and the per-minute aggregation, which can raise before the buffer append, so it is not claimed that every broadcast is buffered; the demo interval; the failed clients of `broadcast` leave by separate disconnect steps, and an immediate send that raises after its message went out counts as a send.
- RegularDelivery.RegularOrder: excludes replay sends that raise after their message went out, because with them it is false (`RegularDelivery.LateReplayRepeats`).
- RegularDelivery.NothingSkipped: assumes a positive delay, because with delay 0 it is false (`DeliveryRuns.ZeroDelaySkips`), and no replay send lost in the marker's own instant, because such a message is never listed again (`RegularDelivery.NotResumed`).
- `trustEngine.ts`: the timestamp; the order of `reasons` matters to the list only, so order independence is stated for score and decision.
- Network, WebSocket, HTTP, files, subprocesses, the user interface, eBPF loaders, the registry contract, and the small threshold ladders, which read branch by branch.
