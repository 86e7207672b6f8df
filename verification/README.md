# Skill validation: registries, key authority and command line

A Dafny model of the parts of the repository that decide who may certify a skill and what a reader is
told about it, with proofs over whole runs.

- `SkillRegistry` and `SkillMVPRegistry` are classes whose fields are the contracts' mappings. Their
  methods keep the loops, the order of the checks and the rollback. Each method is proved equal to one
  transaction of a specification (`SkillRegistryModel`, `SkillMvpModel`), errors included, and the
  theorems are about arbitrary runs of transactions, by any senders, at any block times.
  `SkillRegistryOutcomes` and `SkillMvpOutcomes` say of each call exactly when it goes through and what a
  reader then sees.
- The record table, the (subject, skill) index and the two lineage maps form a `Book`. Every transaction
  of either registry makes one of three edits to it, or none. The book is shown to mean a `Ledger`: a list
  of disjoint chains of records.
- `KeyAuthority` is a class with one method for each lock section. `KeyInterleaving` lets any number of
  calls be in flight, one section a step.
- The command line (`CommandLine`, `HolderProof`, `Preimages`) is joined to the small registry, and
  `Agreement` compares the Go authority with the larger one.

What the code calls but does not define is a parameter: keccak (known only never to be zero), the Groth16
verifier, `crypto.Sign` and `ecrecover` (known only to undo each other), P-256, base64 and time
formatting. Clock readings and block times are parameters too; a block time is a nonzero 64-bit number,
and no order of block times is assumed except where a theorem says so. A mapping entry that was never
written is an absent key. That a signature does not verify where it was not made, and that two digests
do not collide, are hypotheses of `Credentials.VerifiesOnlyUntouched` about the two credentials and the
key at hand, not assumptions about all of them. `SkillMVPRegistry` records are seen as book records that
list one skill.

Each file holds the module of its name: `Evm` (words), `RecordBook`, `LineageLedger`,
`SkillRegistryModel`, `SkillRegistryContract`, `SkillRegistryInvariants`, `SkillRegistryHistory`,
`SkillRegistryOutcomes`, `SkillMvpModel`, `SkillMvpRegistryContract`, `SkillMvpTheorems`,
`SkillMvpOutcomes`, `HolderProof`, `CommandLine`, `Credentials`, `KeyAuthorityModel`,
`KeyInterleaving`, `Issuance`, `Agreement`, `Preimages`.

## Where the code and its comments differ

- The comment at internal/attestation/keys.go:59-61 says that the Solidity registry records the same
  state. `Agreement.AgreeIff` gives the exact condition, read off the history: the two answer a question
  differently exactly when a grant takes it in and either the Go root was stopped, which has no
  counterpart on chain, or the grant is a broad one and the question names somebody or something.
  `Agreement.BroadChildDiffers` and `Agreement.StoppedRootDiffers` are runs of either kind.
- In `SkillMVPRegistry` the root may delegate to itself and attest, so a record issued by the root need
  not replace another. `SkillMvpTheorems.SelfDelegatedRootOpensAChain` is such a run, and
  `SkillMvpTheorems.RootIssuesReplacementsIff` is the exact condition.
- A credential id is meant to name one learner, project, time and agent
  (internal/attestation/attestation.go:252-255), whose fields it joins by NUL without asking that they
  contain none. `Credentials.CredentialIdIsOwnIff` is the exact condition, and
  `Credentials.NulConfusesCredentialIds` gives two requests that share an id.
- A delegation that meets a root revocation reports one of two messages, depending on which section saw
  it. `KeyInterleaving.Linearizable` compares responses up to that message,
  `KeyInterleaving.ResponseDiffersIff` says exactly when it shows, and
  `KeyInterleaving.MessageTellsTheRace` is a run where it does.

## Model

| member | source | states |
|---|---|---|
| `RecordBook.EditKeepsConsistent` | contracts/src/SkillRegistry.sol:195-287 | Opening, extending and closing a record each keep the index, the lineage maps and the record table in agreement. |
| `RecordBook.HasSkillIffListed` | contracts/src/SkillRegistry.sol:318-321 | hasSkill holds exactly when some active record of the subject lists the skill; that record is unique, named by the index and current. |
| `LineageLedger.EditIsMove` | contracts/src/SkillRegistry.sol:176-287 | Each storage edit is the matching move on disjoint chains, guarded on chains alone: open a one-record chain no live chain conflicts with, append to exactly one live tip, or retire exactly one live chain; storage keeps representing the ledger. |
| `LineageLedger.WalkEndsAtTip` | contracts/src/SkillRegistry.sol:104-105 | The walk along successorOf from any known id ends within the number of records, repeats nothing, meets an active record only at its end, and then the index names that record for every skill of the starting one. |
| `LineageLedger.RebuiltChainsAreTheLedger` | contracts/src/SkillRegistry.sol:241-265 | Reading the maps back from the records without predecessor gives exactly the chains of the ledger, both ways. |
| `LineageLedger.IndexIsLiveTips` | contracts/src/SkillRegistry.sol:103 | An index entry is a nonzero id exactly when that id is the tip of a live chain with that subject and skill. |
| `SkillRegistryContract.SkillRegistry.constructor` | contracts/src/SkillRegistry.sol:97-105 | A new registry keeps its deployment constants and every mapping is empty. |
| `SkillRegistryContract.SkillRegistry.Deploy` | contracts/src/SkillRegistry.sol:107-111 | Deployment refuses a zero verifier address; otherwise the sender is the root and that verifier decides proofs. |
| `SkillRegistryContract.SkillRegistry.DelegateIssuer` | contracts/src/SkillRegistry.sol:123-134 | Broad delegation: same errors, new storage exactly that of the transaction. |
| `SkillRegistryContract.SkillRegistry.DelegateIssuerFor` | contracts/src/SkillRegistry.sol:139-160 | Scoped delegation with its seven conditions: same errors, exact new storage. |
| `SkillRegistryContract.SkillRegistry.RevokeIssuer` | contracts/src/SkillRegistry.sol:163-168 | Revocation clears the active flag and the scope mask and nothing else. |
| `SkillRegistryContract.SkillRegistry.AttestWithProof` | contracts/src/SkillRegistry.sol:176-218 | The whole attest call: the first failing check decides the error, any failure leaves storage unchanged, success writes the record and its index entries. |
| `SkillRegistryContract.SkillRegistry.RecordOrRollBack` | contracts/src/SkillRegistry.sol:197-215 | The writes happen all together or not at all. |
| `SkillRegistryContract.SkillRegistry.RecordSkills` | contracts/src/SkillRegistry.sol:207-215 | The loop stops at the first skill that is zero, already held, or repeated earlier in the list, which it notices through its own index writes; otherwise it lists all skills. |
| `SkillRegistryContract.SkillRegistry.RequireDelegationMatch` | contracts/src/SkillRegistry.sol:421-435 | Expiry, subject, program and skill are checked in that order, and only for a scoped delegation. |
| `SkillRegistryContract.SkillRegistry.SupersedeWithProof` | contracts/src/SkillRegistry.sol:225-268 | The whole supersede call: errors in order, exact new storage. |
| `SkillRegistryContract.SkillRegistry.CarrySkills` | contracts/src/SkillRegistry.sol:256-260 | The loop that reads one record's list while it pushes onto another's copies it whole and repoints every entry. |
| `SkillRegistryContract.SkillRegistry.RevokeAttestation` | contracts/src/SkillRegistry.sol:272-287 | The whole revoke call: errors in order, exact new storage. |
| `SkillRegistryContract.SkillRegistry.ClearSkills` | contracts/src/SkillRegistry.sol:280-285 | The loop deletes exactly the entries of this record's skills that still name it. |
| `SkillRegistryContract.SkillRegistry.BindHolder` | contracts/src/SkillRegistry.sol:292-304 | Errors in order, exact new storage. |
| `SkillRegistryContract.SkillRegistry.RevokeHolderBinding` | contracts/src/SkillRegistry.sol:308-316 | Errors in order, exact new storage. |
| `SkillRegistryInvariants.AttestSucceedsIff` | contracts/src/SkillRegistry.sol:186-215 | attestWithProof goes through exactly when one declarative condition holds: authority, nonzero fields, matching proof, fresh id, and nonempty, nonzero, pairwise distinct skills no active record of the subject lists. |
| `SkillRegistryOutcomes.AttestOutcome` | contracts/src/SkillRegistry.sol:195-217 | After a successful attest in a sound state the new record holds exactly the arguments, is current, is shown for each listed skill and verifies with its evidence alone; every other record and slot reads as before. |
| `SkillRegistryOutcomes.SupersedeSucceedsIff` | contracts/src/SkillRegistry.sol:225-250 | A supersede goes through exactly when the root replaces a known active record, no field is zero, the commitment matches, the verifier accepts the proof, and no record has the new id. |
| `SkillRegistryOutcomes.SupersedeOutcome` | contracts/src/SkillRegistry.sol:243-265 | After a successful supersede every skill of the predecessor is shown by the new record alone, which keeps subject, skills and scope, is linked both ways and is the only one of the two to verify; all else reads as before. |
| `SkillRegistryOutcomes.RevokeSucceedsIff` | contracts/src/SkillRegistry.sol:272-278 | A revocation goes through exactly for an active record, by the root or that record's issuer. |
| `SkillRegistryOutcomes.RevokeOutcome` | contracts/src/SkillRegistry.sol:272-287 | After it that record is inactive and fails verification, none of its skills is shown, and every other record and slot reads as before. |
| `SkillRegistryOutcomes.DelegateSucceedsIff` | contracts/src/SkillRegistry.sol:123-134 | A broad delegation goes through exactly for the root, a nonzero child and one of the three masks, and grants just that. |
| `SkillRegistryOutcomes.DelegateForSucceedsIff` | contracts/src/SkillRegistry.sol:139-160 | A scoped delegation goes through exactly for the root, one of the three masks, no zero field and a future expiry, and grants just that. |
| `SkillRegistryOutcomes.RevokeIssuerSucceedsIff` | contracts/src/SkillRegistry.sol:163-168 | The root's revocation takes every scope from that address, unless it is the root, and none from any other. |
| `SkillRegistryOutcomes.VerifyAttestationIff` | contracts/src/SkillRegistry.sol:331-334 | Public verification holds exactly for an active record with that evidence whose issuer is the root or now holds the bit of the scope in an active delegation. |
| `SkillRegistryOutcomes.BindSucceedsIff` | contracts/src/SkillRegistry.sol:292-304 | A bind goes through exactly for an active record without live binding, a nonzero holder and a future expiry, by the root or by that record's own issuer while it holds the bit of the record's scope. |
| `SkillRegistryOutcomes.BindOutcome` | contracts/src/SkillRegistry.sol:303-304 | After it that holder and nobody else is authorized on that record, until the expiry; every other record keeps its holder. |
| `SkillRegistryOutcomes.UnbindSucceedsIff` | contracts/src/SkillRegistry.sol:308-312 | Revoking a binding goes through exactly when one is active and the caller is the root or that record's own issuer while it holds the bit of the scope. |
| `SkillRegistryOutcomes.UnbindOutcome` | contracts/src/SkillRegistry.sol:308-316 | After it nobody is authorized on that record, and every other record keeps its holder. |
| `SkillRegistryInvariants.RunSound` | contracts/src/SkillRegistry.sol:176-316 | From any sound state every run reaches a sound state and only grows the book. |
| `SkillRegistryInvariants.RunRefinesLedger` | contracts/src/SkillRegistry.sol:176-287 | Every run from deployment refines the ledger of disjoint chains, one move or none for each transaction. |
| `SkillRegistryInvariants.ReadBackLedger` | contracts/src/SkillRegistry.sol:241-265 | After any run the chains rebuilt from the maps are those of the ledger, and every walk reaches its tip. |
| `SkillRegistryInvariants.HasSkillMeansOneActiveRecord` | contracts/src/SkillRegistry.sol:318-326 | After any run hasSkill, the index and the active records agree in both directions, with at most one record for each subject and skill. |
| `SkillRegistryInvariants.RecordsArePermanent` | contracts/src/SkillRegistry.sol:195-205 | Records keep their claim for ever, current means active, and a record that is not current never becomes current again. |
| `SkillRegistryHistory.Purge` | contracts/src/SkillRegistry.sol:113-316 | Deleting all transactions of an address to which no delegation goes through leaves the same final state, even if it is a bound holder. |
| `SkillRegistryHistory.ActiveDelegationWasGranted` | contracts/src/SkillRegistry.sol:123-168 | Whatever delegation storage shows as active is the last thing the root did about that child. |
| `SkillRegistryHistory.ActiveDelegationIffGranted` | contracts/src/SkillRegistry.sol:123-168 | Storage shows a delegation as active exactly when the log holds a root grant of just that delegation after which no call of the root about that child went through. |
| `SkillRegistryHistory.EveryRecordWasRecorded` | contracts/src/SkillRegistry.sol:195-265 | Every record was written by one transaction whose sender, time and arguments it carries, whose public input was its commitment and whose proof the verifier accepts; a replacement has the id derived from its predecessor, its subject, skills and scope, and the link to it, and a first record has no link. |
| `SkillRegistryHistory.EveryRecordHasAuthority` | contracts/src/SkillRegistry.sol:399-442 | Every record not issued by the root was attested under a root grant that still stood and allowed it, within its expiry when scoped. |
| `SkillRegistryHistory.RootIssuesExactlyReplacements` | contracts/src/SkillRegistry.sol:186-187 | A record has the root as issuer if and only if it replaced another, with the same subject, skills and scope and no gap in time. |
| `SkillRegistryHistory.EveryDeactivationHasAuthority` | contracts/src/SkillRegistry.sol:262-285 | Every inactive record was deactivated by the root or its own issuer, at exactly its revocation time. |
| `SkillRegistryHistory.HolderWasBound` | contracts/src/SkillRegistry.sol:292-304 | Every active binding was made by a transaction naming that record while it was active, by the root or by that record's issuer holding the bit of its scope, so a successor inherits none. |
| `SkillRegistryHistory.HolderSurvivesStepIff` | contracts/src/SkillRegistry.sol:292-316 | One transaction ends an unexpired authorization if and only if it revokes that binding or revokes or supersedes that attestation. |
| `SkillRegistryHistory.HolderIsStable` | contracts/src/SkillRegistry.sol:343-347 | An authorization lasts over every run until expiry, absent those three. |
| `SkillRegistryHistory.SuccessorStartsUnbound` | contracts/src/SkillRegistry.sol:243-265 | After a supersede the successor is current and has no holder, and the predecessor has lost both. |
| `SkillRegistryHistory.RevokedIssuerIsPowerless` | contracts/src/SkillRegistry.sol:331-334 | After revokeIssuer(c), over every run in which no call giving c the scope goes through, c's records fail verification and c can neither attest nor manage holders in that scope. |
| `SkillRegistryHistory.RevocationIsLocal` | contracts/src/SkillRegistry.sol:163-168 | The call does not affect the verification of any other issuer's record. |
| `SkillMvpRegistryContract.SkillMVPRegistry.constructor` | contracts/src/SkillMVPRegistry.sol:77-79 | A new registry is empty. |
| `SkillMvpRegistryContract.SkillMVPRegistry.DelegateIssuerFor` | contracts/src/SkillMVPRegistry.sol:88-100 | Errors in order, exact new storage. |
| `SkillMvpRegistryContract.SkillMVPRegistry.RevokeIssuer` | contracts/src/SkillMVPRegistry.sol:102-105 | Errors in order, exact new storage. |
| `SkillMvpRegistryContract.SkillMVPRegistry.Attest` | contracts/src/SkillMVPRegistry.sol:110-138 | Errors in order, exact new storage. |
| `SkillMvpRegistryContract.SkillMVPRegistry.Supersede` | contracts/src/SkillMVPRegistry.sol:142-167 | Errors in order, exact new storage. |
| `SkillMvpRegistryContract.SkillMVPRegistry.RevokeAttestation` | contracts/src/SkillMVPRegistry.sol:169-180 | Errors in order, exact new storage. |
| `SkillMvpRegistryContract.SkillMVPRegistry.BindHolder` | contracts/src/SkillMVPRegistry.sol:184-194 | Errors in order, exact new storage. |
| `SkillMvpRegistryContract.SkillMVPRegistry.RevokeHolderBinding` | contracts/src/SkillMVPRegistry.sol:196-202 | Errors in order, exact new storage. |
| `SkillMvpTheorems.StepIsEdit` | contracts/src/SkillMVPRegistry.sol:110-180 | Seen as a book with one skill a record, every transaction makes exactly its edit. |
| `SkillMvpTheorems.RunSound` | contracts/src/SkillMVPRegistry.sol:110-202 | From any sound state every run reaches a sound state and only grows the book. |
| `SkillMvpTheorems.RunRefinesLedger` | contracts/src/SkillMVPRegistry.sol:110-180 | Every run refines the same ledger of disjoint chains. |
| `SkillMvpTheorems.ReadBackLedger` | contracts/src/SkillMVPRegistry.sol:148-164 | After any run the chains rebuilt from the maps are those of the ledger, and every walk reaches its tip. |
| `SkillMvpTheorems.RecordsArePermanent` | contracts/src/SkillMVPRegistry.sol:221-223 | Records keep their claim for ever, current means active, and what is not current never is again. |
| `SkillMvpTheorems.ActiveDelegationWasGranted` | contracts/src/SkillMVPRegistry.sol:88-105 | An active delegation is the last thing the root did about that child. |
| `SkillMvpTheorems.EveryRecordHasAuthority` | contracts/src/SkillMVPRegistry.sol:263-269 | Every record that replaces no other was attested under a standing grant for exactly its learner, skill and program, before expiry. |
| `SkillMvpTheorems.Purge` | contracts/src/SkillMVPRegistry.sol:81-202 | Deleting all transactions of an address to which no delegation goes through leaves the same final state. |
| `SkillMvpTheorems.RootIssuesReplacementsIff` | contracts/src/SkillMVPRegistry.sol:110-167 | After any run the root is the issuer of exactly the records that replace another if and only if no attest sent by the root itself went through. |
| `SkillMvpTheorems.RootIssuesReplacementsUnlessSelfDelegated` | contracts/src/SkillMVPRegistry.sol:155 | In particular this is so while no delegation of the root to itself goes through. |
| `SkillMvpTheorems.SelfDelegatedRootOpensAChain` | contracts/src/SkillMVPRegistry.sol:119 | A run in which a self-delegated root attests a record that replaces nothing. |
| `SkillMvpTheorems.HolderWasBound` | contracts/src/SkillMVPRegistry.sol:184-194 | Every active binding was made by the root or the record's issuer, naming that record, with a nonzero holder. |
| `SkillMvpOutcomes.AttestSucceedsIff` | contracts/src/SkillMVPRegistry.sol:110-138 | An attest goes through exactly under an active unexpired delegation for just that learner, skill and program, with no zero field, a fresh id and no active record of that learner and skill. |
| `SkillMvpOutcomes.AttestOutcome` | contracts/src/SkillMVPRegistry.sol:124-137 | After it the new record holds exactly the arguments, is current and shown for its learner and skill, and all else reads as before. |
| `SkillMvpOutcomes.SupersedeSucceedsIff` | contracts/src/SkillMVPRegistry.sol:142-152 | A supersede goes through exactly when the root replaces a known active record, program and evidence are nonzero, and the id they give with the predecessor's learner and skill is fresh. |
| `SkillMvpOutcomes.SupersedeOutcome` | contracts/src/SkillMVPRegistry.sol:153-167 | After it the new record, issued by the root with the given program and evidence, alone is shown for that learner and skill and is linked to its predecessor both ways; all else reads as before. |
| `SkillMvpOutcomes.RevokeSucceedsIff` | contracts/src/SkillMVPRegistry.sol:169-174 | A revocation goes through exactly for an active record, by the root or that record's issuer. |
| `SkillMvpOutcomes.RevokeOutcome` | contracts/src/SkillMVPRegistry.sol:169-180 | After it that record is inactive, its skill is no longer shown, and all else reads as before. |
| `SkillMvpOutcomes.DelegateSucceedsIff` | contracts/src/SkillMVPRegistry.sol:88-100 | A delegation goes through exactly for the root, no zero field and a future expiry, and grants just that. |
| `SkillMvpOutcomes.RevokeIssuerOutcome` | contracts/src/SkillMVPRegistry.sol:102-105 | The root's revocation takes every permission to attest from that address and from no other. |
| `SkillMvpOutcomes.BindSucceedsIff` | contracts/src/SkillMVPRegistry.sol:184-193 | A bind goes through exactly for an active record without live binding, a nonzero holder and a future expiry, by the root or that record's issuer. |
| `SkillMvpOutcomes.BindOutcome` | contracts/src/SkillMVPRegistry.sol:184-194 | After it that holder and nobody else is authorized on that record, until the expiry. |
| `SkillMvpOutcomes.UnbindSucceedsIff` | contracts/src/SkillMVPRegistry.sol:196-199 | Revoking a binding goes through exactly for a known record, by the root or that record's issuer, even when nothing is bound. |
| `SkillMvpOutcomes.UnbindOutcome` | contracts/src/SkillMVPRegistry.sol:196-202 | After it nobody is authorized on that record, and every other record keeps its holder. |
| `HolderProof.OnlyCanonicalSignaturesRecover` | contracts/src/SkillMVPRegistry.sol:283-297 | Only a 65-byte signature with a low s and a last byte of 0, 1, 27 or 28 recovers to anybody, and the two forms of the last byte recover alike. |
| `HolderProof.VerifyProject` | contracts/src/SkillMVPRegistry.sol:234-242 | The view, through the recovery that shifts v in place: it accepts exactly when the signature recovers to a nonzero, currently authorized holder, and then the signature is canonical. |
| `HolderProof.SignProject` | cmd/issuer-demo/configured.go:291-302 | The signature produced, after its last byte is edited in place, is accepted by every registry state that has a live binding to the signing key's address. |
| `HolderProof.PreimagesAgree` | contracts/src/SkillMVPRegistry.sol:279-281 | The wallet's text preimage of a 32-byte payload is byte for byte the contract's. |
| `HolderProof.ProjectPreimageInjective` | contracts/src/SkillMVPRegistry.sol:275-277 | The bytes behind a project digest determine the chain, the registry, the record and the project. |
| `HolderProof.AcceptedIffRecoversHolder` | contracts/src/SkillMVPRegistry.sol:234-242 | In every reachable state a signature is accepted exactly when it recovers to a nonzero, currently authorized holder. |
| `HolderProof.ExactlyOneLowS` | contracts/src/SkillMVPRegistry.sol:294-295 | Of s and its negation exactly one passes the bound. |
| `HolderProof.TwinIsRejected` | contracts/src/SkillMVPRegistry.sol:294-296 | The negated-s twin of an accepted signature is never accepted. |
| `HolderProof.ProofDiesWithRecord` | contracts/src/SkillMVPRegistry.sol:239-241 | Once a record is revoked or superseded no signature over it is ever accepted again. |
| `CommandLine.IssueOnHardhat` | cmd/issuer-demo/configured.go:131-216 | Issue goes through exactly under its condition; then the one record is that of the child, with the version 1 program of the skill, the evidence and the derived id, verify reports it, and the holder is authorized until expiry. |
| `CommandLine.UpgradeOnHardhat` | cmd/issuer-demo/configured.go:348-396 | Supersede, read back, perhaps bind, check, with others' transactions before each of the last three: the exact outcome and final storage. With nobody in between it succeeds exactly on valid flags, a replaceable predecessor and a bindable holder, and then verify reports the successor, with that holder. |
| `CommandLine.UpgradeReportsSuccessor` | cmd/issuer-demo/configured.go:380-395 | Whatever others do in between, the reported successor took the predecessor's place for good, about the same learner and skill, and it is reported current exactly while it has not been revoked or superseded itself. |
| `CommandLine.UndisturbedUpgradeIsCurrent` | cmd/issuer-demo/configured.go:373-396 | When nobody comes between, an upgrade succeeds exactly when the predecessor is known and active, program and evidence are nonzero, the new id is fresh, and the holder to bind is nonzero with a future expiry; then the successor is current, verify reports it, and just that holder is authorized on it. |
| `CommandLine.VerifyOnHardhat` | cmd/issuer-demo/configured.go:217-262 | The three answers, each at its own moment with others' transactions in between: the id answers for the second call, a current id was current then too, and undisturbed the three coincide. |
| `CommandLine.AnswersCoincide` | cmd/issuer-demo/configured.go:242-256 | In every reachable state HasSkill, Current and a nonzero id are the same answer. |
| `CommandLine.SupersedeTakesOver` | contracts/src/SkillMVPRegistry.sol:142-167 | What a successful supersede changes for a reader: the index moves to a fresh, current, unbound successor for the same learner and skill. |
| `CommandLine.UpgradesLeadToTip` | cmd/issuer-demo/configured.go:373-395 | After any number of successful upgrades, with anything by others in between, verify reports the last successor, every earlier id is superseded, and the last one has no inherited holder. |
| `CommandLine.UpgradesGoThroughIff` | cmd/issuer-demo/configured.go:373-395 | A whole line of upgrades with nobody in between goes through exactly when each carries a program and evidence and their derived ids are new and all different, and these are the ids reported. |
| `KeyAuthorityModel.KeyAuthority.constructor` | internal/attestation/keys.go:73-75 | A new authority has its root and no children. |
| `KeyAuthorityModel.KeyAuthority.ReadRoot` | internal/attestation/keys.go:101-107 | The read section of delegate. |
| `KeyAuthorityModel.KeyAuthority.Install` | internal/attestation/keys.go:131-137 | The write section of delegate: installs unless the root was revoked meanwhile. |
| `KeyAuthorityModel.KeyAuthority.Delegate` | internal/attestation/keys.go:77-138 | Both sections together, when nobody comes between, are the sequential call. |
| `KeyAuthorityModel.KeyAuthority.CanIssueFor` | internal/attestation/keys.go:154-172 | The permission check. |
| `KeyAuthorityModel.KeyAuthority.CanIssue` | internal/attestation/keys.go:140-148 | The legacy check holds exactly for a live unbound child of the scope. |
| `KeyAuthorityModel.KeyAuthority.Authorize` | internal/attestation/keys.go:177-187 | The decision section of Issue. |
| `KeyAuthorityModel.KeyAuthority.Issue` | internal/attestation/keys.go:177-189 | The whole call: a credential comes out exactly when the decision was to authorize, the context is still live and the request is valid, and it is the one signed by the child decided on. |
| `KeyAuthorityModel.KeyAuthority.Revoke` | internal/attestation/keys.go:191-205 | Marks exactly the child of that id as revoked and answers done, or changes nothing and reports that there is none. |
| `KeyAuthorityModel.KeyAuthority.RevokeRoot` | internal/attestation/keys.go:207-212 | Sets the root flag and nothing else. |
| `KeyAuthorityModel.DelegationSucceedsIff` | internal/attestation/keys.go:88-138 | A delegation succeeds exactly on a live context, a supported scope, complete fields with a future expiry when bound, a root that stands and a generated key; it installs that child and nothing else, and a refusal installs nothing. |
| `KeyAuthorityModel.IssueAuthorizedIff` | internal/attestation/keys.go:160-187 | Issue is authorized exactly on a live context under a root that stands, for a known unrevoked child of that scope made for that learner, skill and policy and not expired. |
| `KeyAuthorityModel.ValidRequestNeedsNamedChild` | internal/attestation/keys.go:168-171 | No valid request is authorized under a child made without a learner. |
| `KeyInterleaving.StepKeepsLinear` | internal/attestation/keys.go:88-212 | Every atomic step keeps the log replaying to the authority with the responses given, each decided call in it once. |
| `KeyInterleaving.Linearizable` | internal/attestation/keys.go:88-212 | Every interleaving equals a sequential run in log order, with the same responses up to one message, and keeps the order of calls that did not overlap. |
| `KeyInterleaving.ResponseDiffersIff` | internal/attestation/keys.go:101-137 | For every log entry of every run, the response differs from that of the call run alone in that place exactly when the call was a delegation past its read section and the root had been revoked since. |
| `KeyInterleaving.MessageTellsTheRace` | internal/attestation/keys.go:133-135 | A run in which that message shows. |
| `KeyInterleaving.ReturnedCallSigned` | internal/attestation/keys.go:177-189 | Under every interleaving a returned call signed exactly once, its own request by the child its decision named, if it was an authorized Issue of a valid request whose context was live at its return step, and nothing otherwise. |
| `KeyInterleaving.UndisturbedCallRunsAlone` | internal/attestation/keys.go:88-212 | From any state, a call with nobody in between returns the response and leaves the authority of the sequential call, and signs just what that response gives it. |
| `KeyInterleaving.RootRevocationStops` | internal/attestation/keys.go:207-212 | After the root is revoked no child is installed, new or over an old one, no delegation succeeds, every check is false for ever, and only Issue calls already cleared sign, by distinct calls. |
| `KeyInterleaving.ChildRevocationIsFinal` | internal/attestation/keys.go:191-205 | A revoked child stays revoked and permits nothing, as long as its id is not generated again. |
| `Credentials.Issue` | internal/attestation/attestation.go:142-188 | Succeeds exactly on a live context, a signer and a valid request, and returns the signed credential for them. |
| `Credentials.SignedCredentialVerifies` | internal/attestation/attestation.go:190-203 | The signed credential verifies under the signer's key and carries the request. |
| `Credentials.VerifiesOnlyUntouched` | internal/attestation/attestation.go:190-203 | A credential with the signature of a signed one verifies under a key exactly when its contents are untouched and the key is that signer's, unless two digests collide or the signature verifies where it was not made. |
| `Credentials.VerifyRefuses` | internal/attestation/attestation.go:190-197 | A missing key, a key of another curve, another suite, or a signature that does not decode is refused. |
| `Credentials.SignatureCoversEverything` | internal/attestation/attestation.go:221-250 | Two credentials hash the same struct exactly when they differ in nothing but the signature. |
| `Credentials.CredentialIdIsOwnIff` | internal/attestation/attestation.go:252-255 | Up to hash collisions, a credential id stands for one learner, project, time and agent exactly when neither learner nor project contains a NUL and the agent name contains no NUL-ended field that reads as a time. |
| `Credentials.NulConfusesCredentialIds` | internal/attestation/attestation.go:252-255 | With a NUL in a learner id two different learners get the same credential id. |
| `Issuance.EveryCredentialHasItsDelegation` | internal/attestation/keys.go:177-189 | Under every interleaving each signed credential comes from a child made by an earlier DelegateFor for just that learner, skill, policy and scope; when the call took effect neither child nor root was revoked and it had not expired; the credential verifies under its key, and an unbound child signs nothing. |
| `Issuance.FinishIssue` | internal/attestation/keys.go:185-189 | Joined to the interleaving: the low-level helper gives a credential exactly when the return step of the call signs, and it is the credential of that signing. |
| `Agreement.AgreeIff` | internal/attestation/keys.go:160-172 | For every history of grants, withdrawals and root stops and every question, Go and the registry differ exactly when the last effective grant takes the question in and either the root was stopped or the grant is broad and the question names a learner, a skill or a policy. |
| `Agreement.ChainReadsHistory` | contracts/src/SkillRegistry.sol:421-442 | The registry permits exactly the questions the last effective grant for the key takes in. |
| `Agreement.GoReadsHistory` | internal/attestation/keys.go:160-172 | Go permits exactly those, until its root is stopped, and under a broad grant only questions that name nothing. |
| `Agreement.AgreeUnlessBroad` | internal/attestation/keys.go:160-172 | Without a stop, and read off the Go state: they answer alike exactly when the child is not a live broad one of that scope or the question names nothing. |
| `Agreement.StoppedRootDiverges` | internal/attestation/keys.go:59-61 | After a stop Go permits nothing, and the two sides agree exactly on the questions the last effective grant does not take in. |
| `Agreement.BroadChildDiffers` | contracts/src/SkillRegistry.sol:428-430 | A run with a broad child on which the two sides differ. |
| `Agreement.StoppedRootDiffers` | internal/attestation/keys.go:207-212 | A run with a scoped child and a stopped root on which the two sides differ. |
| `Preimages.TelemetryPayloadInjective` | cmd/issuer-demo/telemetry.go:83-86 | Equal payloads come from the same metric name, rendered value and timestamp, even if the name contains colons. |
| `Preimages.CommitmentPreimageInjective` | cmd/issuer-demo/local.go:56-58 | Equal commitment preimages have the same kind and value. |
| `Preimages.TelemetryIsNoCommitment` | cmd/issuer-demo/telemetry.go:84 | No telemetry payload equals a commitment preimage. |

## Left out

- KeyInterleaving.Linearizable: compares responses up to the message of a delegation refused because the root was revoked, since the code has two such messages; `KeyInterleaving.ResponseDiffersIff` states when they differ.
- SkillRegistryHistory.RevokedIssuerIsPowerless: does not stop a revoked issuer from revoking its own attestations, because the contract lets it.
- SkillRegistryHistory.HolderIsStable: is up to the expiry of the binding; after it the contract lets the holder be replaced.
- Preimages.CommitmentPreimageInjective: is about the hashed strings. Only `Agreement` assumes that hashing does not collide, and only on the names a history and a question use.
- CommandLine.IssueOnHardhat: admits no other transaction between its own three. On the registry it has just deployed nobody but the root and the fresh child, whose keys it holds, can change anything, by `SkillMvpTheorems.Purge`.
- `SkillRegistry.verifyAttestation` looks at the issuer's scope but not at the expiry of its delegation, so it may stay true after the delegation expires; the model follows the code.
- ABI encoding, events and gas: they do not affect the stored state.
- `getAttestation`, `getHolderBinding`, `deriveAttestationId`, `isIssuerAuthorized`, and `verifyAttestation` of the small registry: they read one field or one conjunction of fields.
- Holder stability and the authority behind deactivations are proved for `SkillRegistry` only: for the small registry they would repeat the same arguments over fewer checks.
- `internal/zkproof`: only the yes or no of the verifier matters to the registry.
- `internal/attestation/holder.go`: one guarded membership scan.
- Credentials.VerifiesOnlyUntouched: is up to a digest collision and to a signature that verifies where it was not made, which are for SHA-256 and ECDSA to exclude; and it leaves the base64 spelling of the signature free, since Go's decoder accepts several.
- Serialization of the credential to JSON and its SHA-256: one abstract function of the struct that is serialized. Strings are characters, so JSON's replacement of bytes that are not UTF-8 does not show.
- `evidenceCommitment` and `holderEvidenceCommitment`: a hash of JSON or text, or a pass-through of a 32-byte hex value; the resulting word is a parameter.
- RPC, npm, Hardhat processes, receipts, funding, environment and flag parsing: a contract call is one transaction that goes through or reverts. `sign-project` is modelled from the point where its flags have been accepted.
- Rounding in `%f`: telemetry payloads are compared on the rendered value, which contains no colon.
- `internal/chain`, `internal/config`, `internal/logging`, `internal/platform`, `internal/http`, `infra`: validation, wiring and deployment.
