# Measured launch, sealing, quoting and verification in go-tpm-tools

A Dafny 4.11 model of the hard core of go-tpm-tools, with proofs about it.
`dafny verify dfyconfig.toml` checks the whole project.

## What is modelled

**Measured launch** (`CosTlv`, `CosLog`, `Launch`, `Runner`, `LaunchTheorems`, `AttestedLaunch`, `EndToEnd`).
The launcher turns a container launch into COS events, extends every bank of every attestation root with each of
them and appends them to a log. The verifier replays the log against a register bank and folds it into a state.
Attestation roots, agent and runner are classes; the fold is a method with a loop. The theorems are about whole
runs: log and register agree, an honest launch is recovered exactly, nothing can be added after the separator, and an
accepted attestation whose COS value starts where it should reports the launch that really happened. `EndToEnd` joins
measuring, quoting under interference and the verification service in one method.

**PCR policy, sealing and quoting** (`PcrSelection`, `Alignment`, `Tpm`, `Keys`, `Reading`, `Sealing`,
`SpreadSealing`, `Quotes`, `Import`).
The TPM is a state machine of PCR banks, objects, policy sessions and creation tickets. Before every command other
actors take any number of turns, changing PCRs and creating objects, and every command may fail. `At(t)` gives the PCR
values at every moment, and every creation, by whomever, recorded the values of its own moment, so that "the values
held at that moment" is a statement about the machine. The client code runs on top of it command by command.

**Concurrent signing** (`Signer`). Any number of threads with one global mutex, as a state machine over their steps.

**Attestation verification** (`Quotes`, `Attestation`). The search over quotes in order of hash preference, and the
reuse of its result to pick the bank for the COS event log.

**The simulator's clock** (`Clock`), **mount containment** (`Paths`, `Mounts`) and **firmware versions**
(`FirmwareVersion`).

## Modelling decisions

- Go strings and byte slices are sequences of bytes. Hash functions are parameters with fixed output lengths. No hash
  is assumed injective: a theorem either names the two messages whose collision would be the only exception, or assumes
  that the finitely many messages hashed in that run do not collide.
- Names, creation tickets, key wrapping, duplication and signatures are ideal.
- The Canonical Event Log library, the firmware event log library and Go's `path/filepath` are modelled by their
  documented behaviour. A log record's digests are compared as a fold from the zero register (register numbering as in
  section 38 of UEFI 2.10).
- Flushing a live handle succeeds; every other TPM command may fail at any time. Sessions that the newer TPM library
  opens for one command are closed by it on every path.
- A TPM session that has authorized a command starts over with a zero digest.

## Findings

- The empty log is accepted against every bank (`EmptyLogAlwaysAccepted`), so finality is about non-empty logs.
- Acceptance of an honest log needs parseable environment entries and nothing more. A launch carries one of the three
  restart policies, because the launcher rejects every other text (launcher/spec/launch_spec.go:169).
- With trusted roots and an attestation without certificate, the code falls back to the key in the attestation and then
  finds no trusted key, so verification fails (`EarlyErrors`).
- A PCR digest is taken over a concatenation of values without their lengths. Exactly the values that start and end
  where they do in a bank of full digests are bound (`AlignmentExact`); any other value can be replaced by regrouping
  within a window around it (`RegroupedShows`). No caller checks the lengths. This has three consequences.
  - The values with an accepted quote are the quoted ones if and only if they have digest length (`QuoteUniqueness`,
    `LengthsUnbound`).
  - An accepted attestation reports the real launch if the values below the COS register are together as long as full
    digests (`AttestedLaunch`); that condition is exact for the register that the log is replayed against
    (`AlignmentNeeded`). Without it, any verified attestation whose firmware log has no events for a window of PCRs
    around the COS register still verifies with the values of that window regrouped, and the service reports the launch
    recorded in any other register of the window (`RegroupedLaunch`, `VerifyRegrouped`).
  - Certified unsealing vouches for the wanted values if their certified counterparts are aligned in this way (`Unseal`,
    exact by `CertificationExact`); without that it can vouch for the value of another PCR (`RegroupedCertified`).
- Sealing to current values reads them in chunks of eight. Up to eight PCRs were all held at one moment (`Seal`); for every
  larger selection there is a run in which sealing succeeds although the values were never held together (`SealSpread`).
- Values at indexes from 24 up are not bound by a quote (`HighIndexUnbound`). The count-based selection comparison is
  exact if and only if the selection has no repetition. Neither arises from a genuine TPM, whose selections are bitmasks
  over its own PCRs.
- Reading the simulator's clock repeatedly at one instant can advance TPM time. `RepeatedReads` gives the exact amount for
  every state: below the nominal rate it grows without bound, above it by at most one tick. `TimeWithoutTime` shows that
  the growth is reachable from a reset.
- A signing command that fails after its PolicyPCR leaves the session digest non-zero. From then on no signature
  succeeds on that session (`ZeroWhenFree`, `SignSeesOneExtension`, `FailedSign`).
- Version texts are parsed leniently, so that parsing is not injective (`ParsedNotInjective`). On canonical texts it is
  (`CanonicalParses`), and printing always is.
- The comment on the mount label (launcher/spec/launch_policy.go:109-112) says that relative allowed paths are taken as
  relative to "/". The code keeps them relative, and the check then fails when it reaches such an entry, so later
  entries are never considered. The model follows the code (`VerifyMountDestination`).

## Model

| member | source | states |
|---|---|---|
| CosTlvs.MarshalBijective | cel/cos_tlv.go:61-73 | the TLV encoding is a bijection between encodable TLVs and decodable byte strings |
| CosTlvs.MeasurableIff | cel/cos_tlv.go:75-92 | an event has a digest exactly when both of its length fields can hold their lengths |
| CosTlvs.ParseIffEncoded | cel/cos_tlv.go:95-106 | a record's content is accepted as an event exactly when it is that event's own encoding |
| CosTlvs.DigestMessageInjective | cel/cos_tlv.go:75-92 | two events that are hashed as the same bytes are the same event |
| CosTlvs.MessageLayout | cel/cos_tlv.go:61-92 | the hashed bytes position by position: type 80, big-endian length, event type, big-endian length, content |
| EnvVars.ParseIffFormatted | cel/cos_tlv.go:115-143 | parsing NAME=VALUE undoes formatting and accepts nothing else |
| EnvVars.FormatExact | cel/cos_tlv.go:115-127 | a pair can be written exactly if the name is valid and the value is the UTF-8 encoding of some text |
| EnvVars.Utf8Exact | cel/cos_tlv.go:116-121 | bytes are valid UTF-8 exactly if they are the encoding of a sequence of Unicode characters |
| EnvVars.NameExact | cel/cos_tlv.go:122-125 | which names are valid, character by character |
| CosLog.CcModeExact | server/eventlog.go:446-452 | a GPU mode is found exactly in its own text, and every other text is rejected |
| CosLog.BindingsMeaning | server/eventlog.go:345-459 | an environment map holds a value exactly when the last parseable entry for that name has it |
| CosLog.CheckRecord | server/eventlog.go:355-386 | a record passes exactly if register type, register index, content and all digests are right |
| CosLog.ApplyEvent | server/eventlog.go:393-455 | the switch accepts an event exactly when it may follow the state, and changes exactly the field its type feeds |
| CosLog.StateOfSnoc | server/eventlog.go:393-455 | the state described field by field by a log is what the step-by-step fold produces |
| CosLog.EventsOkPrefix | server/eventlog.go:345-459 | acceptability is closed under prefixes: a rejected log stays rejected however it goes on |
| CosLog.GetVerifiedCosState | server/eventlog.go:345-459 | the fold succeeds exactly on acceptable logs (registers, digests, contents, order) and returns the state they describe, field by field |
| CosLog.GetCosStateFromCEL | server/eventlog.go:325-341 | a log yields a state exactly when it replays against the bank and is acceptable |
| Launch.AttestRoot.constructor | launcher/agent/agent.go:126-141 | a new root over zero registers has an empty log that agrees with them |
| Launch.AttestRoot.ExtendBanks | launcher/agent/agent.go:373-384 | without failure every bank's COS register is extended once with its own digest, and no other register changes |
| Launch.AttestRoot.Extend | launcher/agent/agent.go:373-421 | registers and log stay in agreement; a failed measurement is not logged; a working root fails only without banks or on an unencodable event |
| Launch.RecordsExact | launcher/agent/agent.go:373-421 | the log record by record: consecutive numbers, register 13 or 4, a digest of the event for every bank, the event itself; later events change no record |
| Launch.AttestRoot.Attest | launcher/agent/agent.go:203-233 | evidence quotes every bank and then encodes the log |
| Launch.Agent.MeasureEvent | launcher/agent/agent.go:176-183 | after a success every root has the same event sequence, each in agreement with its registers |
| Runner.FormatEnvVars | launcher/container_runner.go:316-326 | succeeds exactly if every override can be written, with the texts in order |
| Runner.ContainerRunner.MeasureEach | launcher/container_runner.go:356-409 | one event after another reaches every root; on failure exactly a proper prefix did, which on working roots ends before the first event that cannot be measured |
| Runner.ContainerRunner.MeasureContainerClaims | launcher/container_runner.go:356-409 | a success measures image, arguments, environment and overrides, in this order, on every root |
| Runner.ContainerRunner.MeasureCELEvents | launcher/container_runner.go:339-353 | a success measures exactly the launch's events with the separator last, on every root |
| Runner.ContainerRunner.Run | launcher/container_runner.go:576-592 | all measuring precedes the first attestation, and every evidence carries the whole launch log, replaying to the quoted registers |
| Runner.ContainerRunner.AttestTimes | launcher/agent/agent.go:203-233 | every attestation's log replays to the register values it quotes |
| Runner.MeasuredLogReplays | launcher/agent/agent.go:373-384 | the log of measured events replays against a bank exactly when its COS register is the fold of their digests |
| LaunchTheorems.ContentsOfLaunch | launcher/container_runner.go:339-422 | every kind of event is in a launch log as often, and in the order, that the launch asks for |
| LaunchTheorems.LaunchInOrder | launcher/container_runner.go:339-408 | the kinds of events come in the fixed order of measuring, the separator last |
| LaunchTheorems.PolicyRoundTrip | launcher/spec/launch_spec.go:43-46 | the verifier finds a restart policy exactly in the launcher's text for it, so that the launched policy is the reported one |
| LaunchTheorems.LaunchState | launcher/container_runner.go:339-422 | the state described by a launch's events is the launched one: restart policy, arguments in order, environment with the last duplicate winning, overrides, memory flag |
| LaunchTheorems.LaunchEventsOk | server/eventlog.go:345-459 | a launch's events are acceptable exactly if every process environment entry parses; overrides never matter |
| LaunchTheorems.HonestLaunchRoundTrip | server/eventlog.go:325-459 | for every launch, the measured log is accepted exactly under that condition, and yields exactly the launched state |
| LaunchTheorems.EvidenceRoundTrip | launcher/agent/agent.go:203-233 | the same for the evidence of a run, on every quoted bank |
| LaunchTheorems.AcceptedFold | server/eventlog.go:325-341 | a non-empty accepted log folds to the register it is accepted against |
| LaunchTheorems.Finality | server/eventlog.go:345-459 | after the separator, for every later sequence of extends: a non-empty log is accepted only if nothing was extended, and then lists exactly the measured events |
| LaunchTheorems.LaunchFinality | server/eventlog.go:325-459 | hence the only state any non-empty log can yield is the launched one |
| LaunchTheorems.EmptyLogAlwaysAccepted | server/eventlog.go:325-341 | the exception: the empty log is accepted against every bank and yields the empty state |
| AttestedLaunches.AttestedLaunch | verifier/fake/fakeverifier.go:90-115 | if a machine launched, extended more and quoted, then whatever non-empty log and values are accepted with the quote, provided the supplied values below the COS register have the total length of full digests: nothing more was extended and the reported state is that of the launch |
| AttestedLaunches.AlignmentNeeded | verifier/fake/fakeverifier.go:233-253 | that condition holds exactly if values of these lengths always show the quoted COS register |
| AttestedLaunches.RegroupedLaunch | verifier/fake/fakeverifier.go:90-115 | the counterexample without it: for a quote that verifies and whose firmware log ignores a window around the COS register, and a launch folded into any register of the window, the attestation with that window regrouped verifies and the log of that launch is accepted |
| AttestedLaunches.VerifyRegrouped | verifier/fake/fakeverifier.go:90-115 | so for every verified attestation of this kind the service succeeds and reports that launch |
| EndToEnd.LaunchAndVerify | launcher/container_runner.go:576-592 | measuring, then quoting under interference, then the service: whatever non-empty log is accepted, nothing was extended in between and the launch is reported; the launcher's own log is accepted exactly if the launch is reportable; working roots and an undisturbed TPM give a quote exactly for measurable launches, restricted keys and readable PCRs |
| EndToEnd.QuoteAndVerify | verifier/fake/fakeverifier.go:90-115 | the same from the quote on, with the quoted values those of one moment or a named collision |
| PcrSelection.CheckSubset | internal/pcrs.go:47-62 | succeeds exactly if banks agree and every PCR of the subset has the same value in the superset |
| PcrSelection.SamePCRSelection | internal/pcrs.go:76-89 | the count-and-membership comparison |
| PcrSelection.SameSelectionDomain | internal/pcrs.go:76-89 | for repetition-free selections it holds exactly when bank and set of PCRs are the same |
| PcrSelection.RepetitionIsAmbiguous | internal/pcrs.go:76-89 | for every selection with a repetition some other set of PCRs passes |
| PcrSelection.PCRDigest | internal/pcrs.go:109-117 | hashes the values in index order |
| PcrSelection.DigestBindsValues | internal/pcrs.go:109-117 | equal digests over the same PCRs with digest-length values mean equal values, or a named collision |
| Alignment.AlignedBinds | internal/pcrs.go:109-117 | equal digests bind every value that starts and ends where it does among full digests, or a named collision |
| Alignment.AlignmentExact | internal/pcrs.go:109-117 | for every possible shape of values, exactly the aligned values are bound |
| Alignment.RegroupedShows | internal/pcrs.go:109-117 | any PCR with others on both sides can be made to show any value of a window around it, without changing the concatenation or any value outside the window |
| PcrSelection.EncodePCRSelection | internal/pcrs.go:120-132 | count 1, big-endian algorithm identifier, size 3, and bit n % 8 of mask byte n / 8 set exactly if PCR n is listed: order and repetitions do not matter |
| PcrSelection.EncodingInjective | internal/pcrs.go:120-132 | the encoding determines the bank and the subset of 0..23 |
| PcrSelection.SelectionOf | internal/pcrs.go:65-72 | a repetition-free selection of exactly the map's PCRs, in any order |
| PcrSelection.PCRSessionAuth | internal/pcrs.go:92-105 | a function of the PCR values alone, equal to what PolicyPCR computes from zero |
| PcrSelection.AuthMeaning | internal/pcrs.go:92-105 | the policy is the digest of zeros, the command code, a selection with exactly these PCRs and the digest of the values |
| PcrSelection.AuthBindsValues | internal/pcrs.go:92-105 | two sets of digest-length PCR values with the same policy are the same, or a named collision |
| PcrSelection.AuthBindsConcat | internal/pcrs.go:92-105 | for values of any length a policy determines bank, PCRs and concatenation, or a named collision |
| Keys.NewPCRSession | client/session.go:43-49 | an empty selection needs no session; otherwise exactly one fresh session is added |
| Keys.Auth | client/session.go:52-97 | adds exactly one PolicyPCR or PolicySecret to the session it authorizes with, and nothing on failure |
| Keys.Finish | client/keys.go:215-236 | an endorsement key policy adds exactly one fresh session, an empty policy none, and other policies fail; nothing is left behind on failure; undisturbed exactly those two succeed |
| Keys.NewKey | client/keys.go:192-213 | adds exactly one object; on failure objects and sessions are as before; undisturbed it fails exactly on unknown policies |
| Keys.NewCachedKey | client/keys.go:149-186 | afterwards the slot holds a key of the template; no transient object stays; other slots keep their keys; a success adds exactly the key's session, a failure at most one; undisturbed it succeeds whatever the slot held, and keeps a key of the template |
| Keys.LookUp | client/keys.go:149-176 | finds exactly a key of the template in the slot, and empties a slot with another key |
| Keys.AttestationKeyECC | client/keys.go:76-78 | the key in slot 0x81008F00 has the ECC template; undisturbed it is always there afterwards |
| Keys.CloseKey | client/keys.go:263-268 | removes the key's object and its session, nothing else |
| Reading.ReadPCRs | client/pcr.go:55-79 | exactly the values of each chunk at its own moment, under any interference; so each value was had during the call, and undisturbed they are the current ones |
| Reading.OneChunk | client/pcr.go:55-79 | a selection of at most eight PCRs is read at one moment |
| Reading.MergePCRSelAndProto | client/pcr.go:129-163 | the union of the given PCRs and of selected ones with values they had during the call; undisturbed it fails exactly on different banks, overlap or unreadable PCRs |
| Sealing.SealHelper | client/keys.go:303-345 | success means the certified PCRs are the values at the moment the object was created |
| Sealing.Seal | client/keys.go:277-301 | under any interference the certified PCRs are the PCR values at the moment of creation, and the object opens under the policy for the merged values, each read during the call and all at one moment if at most eight; it succeeds if others stop once they are read |
| SpreadSealing.SealSpread | client/keys.go:277-301 | for every selection of more than eight PCRs, a run in which sealing succeeds and its values were never held together |
| Sealing.CheckTicket | client/keys.go:375-406 | a ticket that passes, also with the fallback key, is for a creation by this TPM; undisturbed exactly those pass, and also if the only trouble is that the TPM first refuses to certify without a signing key, whatever the key slot held; handles are conserved |
| Sealing.CheckSigned | client/keys.go:383-402 | with the cached signing key, undisturbed, exactly the tickets of this TPM pass |
| Sealing.Certify | client/keys.go:366-420 | for aligned certified values, success means this TPM created the object at one moment at which every wanted PCR held the wanted value; undisturbed, or refused once for want of a signing key, it succeeds exactly if the wanted values are certified, the ticket is this TPM's and the digests match |
| Sealing.CertificationSound | client/keys.go:408-419 | certified values that are aligned are those of the moment of creation, or a named collision |
| Sealing.CertificationExact | client/keys.go:408-419 | among the value lengths that pass the checks, the aligned ones are exactly those that always show the value of the creation |
| Sealing.RegroupedCertified | client/keys.go:408-419 | the counterexample without alignment: for every creation there is a blob that passes all certification checks for a value that the PCR did not hold |
| Sealing.UseSession | client/session.go:52-97 | undisturbed it succeeds exactly if the policy holds; in any case success means that the PCRs satisfied the policy at the very moment of unsealing |
| Sealing.CertifyWanted | client/keys.go:366-420 | puts the wanted values together and certifies them: exact both undisturbed and refused once |
| Sealing.OpenLoaded | client/keys.go:422-438 | unsealing succeeds only if the policy held at a moment of the call; objects and sessions are as before on every path |
| Sealing.Unseal | client/keys.go:351-438 | for every blob: certification is sound for aligned values, with one moment at which all of them held; success means the policy held at a moment of the call; undisturbed, and also if the TPM refuses to certify without a signing key, it succeeds exactly if the object opens now and the wanted values are certifiable; transient objects and sessions are conserved whichever commands fail |
| Sealing.OpensExactly | client/keys.go:422-438 | sealed data opens exactly when the PCRs of the merged selection agree with their seal-time values, which for digest-length values means holding each of them, and always when there are none, up to named collisions |
| Sealing.UnsealUncertified | client/keys.go:351-438 | without certification, unsealing what was sealed returns the original bytes exactly in that case |
| Sealing.SealThenUnseal | client/keys.go:277-438 | the round trip end to end: sealing under interference, any number of turns of others, then undisturbed unsealing returns the original bytes exactly if the PCRs then agree with what was sealed and the wanted values are among the certified ones |
| Sealing.Reseal | client/keys.go:474-480 | the new object wraps the same bytes, with everything that sealing gives; undisturbed it succeeds exactly if unsealing does and the new values can be sealed to |
| Imports.LoadHandle | client/import.go:12-31 | loads exactly the object inside a blob made for this key; only the key's own session is touched |
| Imports.Import | client/import.go:36-58 | conserves objects and all other sessions whichever commands fail, returns the secret of a blob made for this key whose policy held, and undisturbed succeeds exactly then |
| Imports.LoadChallenge | client/import_certify.go:48-92 | the endorsement key is flushed on every path; only the challenge key stays |
| Imports.CreateCertifiedAKBlob | client/import_certify.go:48-122 | conserves objects and sessions whichever commands fail; the certificate is for this TPM's key by the imported key; undisturbed it succeeds exactly for intact blobs and supported algorithms |
| Signers.RunInvariant | client/signer.go:57-69 | in every run, whatever fails: mutual exclusion, and each session holds one reading while in use and none otherwise, unless signing failed on it |
| Signers.ZeroWhenFree | client/signer.go:57-69 | when the mutex is free a session digest is zero exactly if no signing command on it has failed |
| Signers.SignSeesOneExtension | client/signer.go:60-69 | every signing command runs with exactly one PolicyPCR unless one failed before on that session, after which none ever succeeds |
| Signers.FailedSign | client/signer.go:57-70 | for every key, a run in which a signing command fails and its reading stays behind |
| Signers.UndisturbedSign | client/signer.go:57-70 | a call with the mutex free, the right PCRs and no earlier failure signs and leaves everything as it was |
| Quotes.AcceptedQuote | internal/quote.go:33-135 | a quote is accepted exactly if its signature, with SHA-256 or better and a scheme that fits the key, verifies over a quote with this nonce and selection whose digest is that of the values with it |
| Quotes.QuoteUniqueness | internal/quote.go:126-135 | the values with an accepted quote are the quoted ones in domain and value exactly if they have digest length, or a named collision |
| Quotes.QuoteBindsAligned | internal/quote.go:126-135 | one by one, every aligned value of an accepted quote is the quoted one, or a named collision |
| Quotes.OnlyConcatCounts | internal/quote.go:126-135 | any other values of the same PCRs with the same concatenation are accepted too |
| Quotes.LengthsUnbound | internal/quote.go:126-135 | so any value with quoted ones on both sides can be replaced by any other of a window, with everything outside unchanged |
| Quotes.HighIndexUnbound | internal/pcrs.go:109-117 | values at indexes from 24 up are not bound |
| Quotes.TakeQuote | client/keys.go:444-469 | under any interference the returned values all held at one moment of the call; undisturbed it succeeds exactly for restricted keys and readable PCRs |
| Attestations.SupportedQuotes | server/verify.go:347-358 | the first quote of each algorithm, in order of preference |
| Attestations.VerifyAttestation | server/verify.go:129-184 | computes the outcome that the following results characterise |
| Attestations.SearchFindsBest | server/verify.go:149-183 | the loop returns the state of the best usable bank and fails only if no bank is usable |
| Attestations.MostPreferred | server/verify.go:129-184 | a success rests on a trusted key (a listed one that comes with the attestation, or the one certified under the roots) and on the first quote of the usable bank with the longest digest, never SHA-1 unless allowed; the state is what the firmware log replays to, with the certificate's instance information |
| Attestations.SucceedsExactly | server/verify.go:129-184 | verification succeeds exactly if some key is trusted and some bank that was asked for has a first quote that verifies with it and replays |
| Attestations.TrustExact | server/verify.go:188-226 | the key check accepts exactly the trusted keys, with the certificate's instance information |
| Attestations.AlgosExact | server/verify.go:139-147 | the banks tried are exactly those asked for, the longest digest first |
| Attestations.EarlyErrors | server/verify.go:129-147 | when each error before the quotes is reported, exactly |
| Attestations.LateErrors | server/verify.go:149-184 | otherwise the least preferred bank with a quote decides the error, and without any the error says so |
| Attestations.Sha1ErrorExact | server/verify.go:166-173 | the SHA-1 error is reported exactly when verification fails but would succeed with SHA-1 allowed |
| Attestations.ExtractPCRBank | verifier/fake/fakeverifier.go:233-253 | the PCRs of the first quote with the hash, failing exactly if there is none or the hash is invalid |
| Attestations.VerifyTPM | verifier/fake/fakeverifier.go:90-115 | the COS log is checked against the bank of exactly the quote that was verified; a bank is always found |
| Clock.StepBounds | simulator/ms-tpm-20-ref/Samples/Google/Clock.c:111-132 | an updating read never puts back more than it took, and its rounding is bounded |
| Clock.Leftover | simulator/ms-tpm-20-ref/Samples/Google/Clock.c:111-132 | how much real time a read leaves over, exactly |
| Clock.InvariantRun | simulator/ms-tpm-20-ref/Samples/Google/Clock.c:63-174 | the clock invariant holds over every interleaving of resets, reads and rate changes |
| Clock.CumulativeError | simulator/ms-tpm-20-ref/Samples/Google/Clock.c:111-132 | TPM time is bounded on both sides against elapsed real time after n updating reads |
| Clock.NeverDecreases | simulator/ms-tpm-20-ref/Samples/Google/Clock.c:83-133 | in every run, TPM time never decreases over a stretch without reset |
| Clock.ReadLeavesLittle | simulator/ms-tpm-20-ref/Samples/Google/Clock.c:83-133 | after any read at most 2 ms is held back, and at most 1 ms up to rate 30001 |
| Clock.RepeatedReadStable | simulator/ms-tpm-20-ref/Samples/Google/Clock.c:106-132 | when a second read at one instant leaves TPM time alone |
| Clock.RepeatedReads | simulator/ms-tpm-20-ref/Samples/Google/Clock.c:106-132 | what any number of further reads at one instant add, exactly, for every state: nothing, one tick in all, or one tick each |
| Clock.TimeWithoutTime | simulator/ms-tpm-20-ref/Samples/Google/Clock.c:106-132 | a run from a reset in which TPM time grows by any amount while one millisecond passes |
| Clock.NoOverflow | simulator/ms-tpm-20-ref/Samples/Google/Clock.c:83-133 | the products and sums of a read fit in 64 bits |
| Clock.Timer.TimerReset | simulator/ms-tpm-20-ref/Samples/Google/Clock.c:63-69 | establishes the invariant from any contents of the globals |
| Clock.Timer.TimerWasReset | simulator/ms-tpm-20-ref/Samples/Google/Clock.c:135-139 | reports and clears the reset flag, leaving the time alone |
| Clock.Timer.TimerRead | simulator/ms-tpm-20-ref/Samples/Google/Clock.c:83-133 | the 64-bit read is the ideal one |
| Clock.Timer.ClockAdjustRate | simulator/ms-tpm-20-ref/Samples/Google/Clock.c:141-174 | each of the six known amounts moves the rate by itself as far as 25000 or 35000; nothing else changes it |
| Clock.AdjustExact | simulator/ms-tpm-20-ref/Samples/Google/Clock.c:141-174 | within the limits the opposite adjustment undoes it; at a limit the rate stays there; unknown amounts change nothing |
| Paths.SplitJoin | launcher/spec/launch_policy.go:309-331 | splitting undoes joining of separator-free elements |
| Paths.CleanPreserves | launcher/spec/launch_policy.go:213-222 | cleaning changes neither where a path leads nor whether it is absolute |
| Paths.CleanIdempotent | launcher/spec/launch_policy.go:213-222 | cleaning twice is cleaning once |
| Paths.CleanCanonical | launcher/spec/launch_policy.go:309-313 | two paths have the same cleaned text exactly if they lead to the same place in the same way |
| Paths.LastElement | launcher/spec/launch_policy.go:309-313 | a name written last adds an element, ".." drops one and leaves the root alone, "." and a slash change nothing |
| Paths.FirstName | launcher/spec/launch_policy.go:309-313 | the same right after the root |
| Paths.CleanText | launcher/spec/launch_policy.go:309-313 | going up undoes going down, and cleaned text spells the elements out |
| Paths.FirstElement | launcher/spec/launch_policy.go:323-328 | the text test sees exactly whether the first element is "..", also for names such as "..foo" |
| Paths.InsideExactly | launcher/spec/launch_policy.go:318-328 | the test passes exactly when the allowed path's elements are a prefix of the destination's |
| Mounts.CreateTmpfsMount | launcher/internal/launchermount/tmpfs.go:28-63 | which options make a mount, its absolute mountpoint and its size |
| Mounts.UnderRootExact | launcher/internal/launchermount/tmpfs.go:43-45 | a relative destination is taken from the root and cleaned |
| Mounts.ProcessMount | launcher/spec/launch_spec.go:402-429 | which texts make a mount; its mountpoint is the last destination, made absolute, and its size the last size |
| Mounts.AllowedMountDestinations | launcher/spec/launch_policy.go:213-222 | the label's non-empty entries, cleaned |
| Mounts.AllowedExact | launcher/spec/launch_policy.go:213-222 | entry by entry: empty ones vanish, others are cleaned, order kept |
| Mounts.VerifyMountDestination | launcher/spec/launch_policy.go:309-331 | accepts exactly the absolute destinations in or below an allowed directory that comes before any relative entry |
| Mounts.VerifyMounts | launcher/spec/launch_policy.go:288-294 | accepts exactly if every mount is permitted |
| Mounts.AbsolutePolicy | launcher/spec/launch_policy.go:309-331 | with absolute directories only, the order of the list does not matter |
| Mounts.PolicySeesThroughText | launcher/spec/launch_policy.go:309-331 | the verdict depends only on where a destination leads |
| FirmwareVersion.ConvertGCEFirmwareVersionToSCRTMVersion | server/policy_constants.go:160-171 | prints the version as terminated UCS-2 text, and version 0 as nothing |
| FirmwareVersion.ConvertSCRTMVersionToGCEFirmwareVersion | server/policy_constants.go:128-157 | accepts exactly the texts with the prefix, zero high bytes and a 32-bit number |
| FirmwareVersion.PrefixText | server/policy_constants.go:52-56 | the prefix is the UCS-2 text "GCE Virtual Firmware v" |
| Basics.DecimalPlaces | server/policy_constants.go:149-153 | decimal notation: digits put after others multiply those by a power of ten |
| FirmwareVersion.ParsePrinted | server/policy_constants.go:128-171 | parsing a printed version gives it back, exactly for non-zero versions |
| FirmwareVersion.PrintedInjective | server/policy_constants.go:160-171 | different versions have different texts, 0 included |
| FirmwareVersion.ParsedNotInjective | server/policy_constants.go:128-157 | different texts can parse to the same version |
| FirmwareVersion.CanonicalParses | server/policy_constants.go:128-171 | a text is canonical and parses to a version exactly if it is that version's printed text |
| FirmwareVersion.ParsedInjectiveOnCanonical | server/policy_constants.go:128-171 | parsing is injective on canonical texts |
| FirmwareVersion.HasAllowedVersion | server/policy.go:61-79 | succeeds exactly if the version's text is in the list |
| FirmwareVersion.AllowListExact | server/policy.go:61-79 | an allow list of printed versions admits exactly those versions |

## Left out

- Signature, HMAC, KDF, duplication and certificate internals: ideal primitives.
- Byte parsing of the canonical and firmware event logs, and the copying of firmware state: library code, by contract only. A missing PCR bank is a command error.
- Container runtime lookups in the runner, tokens and their refresh timing, retries, logging, REST and metadata clients: input and output.
- The real clock running backwards: reads assume a non-decreasing real clock, as CLOCK_MONOTONIC gives.
- Handle accounting for functions that return a live key, and for keys with an endorsement policy that fail after their session was opened.
- The early argument checks of Sign, and signing through SignData, which does not take the mutex.
- Env, command, log and monitoring rules of the launch policy, and splitting the operator's mount list at ";": easy members.
- Policies for PCR indexes from 24 up: Seal requires target indexes below 24, where the original would fail at run time.
- Attestation of TDX guests beyond the shared event log: the RTMR bank is covered by the same log theorems.
- Keys.NewCachedKey: a failure after the key's own session was opened leaves that session, as in the source.
- Launch.AttestRoot.Attest: the nonce and signature of the quote are not part of the evidence; quotes are modelled in Quotes.
- Reading the launch spec: that an empty restart policy text means Never (launcher/spec/launch_spec.go:166-168) is an easy member.
- Clock.Timer.TimerRead: for runs of bounded length and real time, beyond which 64-bit products could overflow.
