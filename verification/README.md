# Verdikt: the settlement protocol, the SLA engine and the relay, proved

A Dafny model of what decides about other people's money in Verdikt: the two GenLayer contracts that hold and
settle claims, the engine that turns a provider's published SLA and one observed call into a verdict, the composer
that edits such an SLA, and the small protocols the proxy and the workflows rest on.
`dafny verify dfyconfig.toml` checks all of it.

## What is modelled

**The settlement protocol.** `SettlementToken` keeps balances and a one-way escrow (owner, custodian, amount);
`SlaClaimJudge` is the custodian, and shares one escrow bucket per owner between the deposits behind that owner's
slugs and the bonds of that owner's claims. Payouts are not transfers but `release` messages deferred to finality.
Each contract is a class whose methods update its storage in place (`SettlementToken.dfy`, `ClaimJudgeContract.dfy`)
and are proved to do what a function on storage values says (`Token.Apply`, `ClaimJudge.Apply`). The protocol
(`ClaimProtocol.dfy`) is a state machine over both storages, the bag of undelivered releases, the clock and an event
log: its steps are a token call by anybody but the judge, a judge call by anybody, a clock tick, and the delivery of
any one pending release. What an LLM decides, what the token answers and what Arc's registry returns are free
inputs. `ClaimAnswers.dfy` says exactly when each call goes through, in terms of what is on file and in the event
log, `ClaimOrigins.dfy` where everything a claim says came from, and `ClaimClamps.dfy` what a closing emits even
where an account is short. `ClaimRuns.dfy`, `ClaimScenarios.dfy` and `CarelessFunding.dfy` build runs that reach the
limits of what is promised.

**The SLA engine.** JSON objects are lists of members in insertion order, so that not depending on that order is a
theorem. `JsonSchema.dfy` has the validator as a function that reports the first failure of its fixed traversal, and
the same keywords as an order-free predicate; `JsonSchemaEngine.dfy` has the loops with early returns that the code
runs, proved equal to that function. `JsonSchemaKeywords.dfy` says each keyword by name, and `JsonSchemaFirst.dfy`
which failure is the first and what it reports. `SlaEvaluation.dfy` and `SlaVerdicts.dfy` carry the answer on to the
judgement, the clause named in it, the hash on chain and back. `SlaComposer*.dfy` and `SlaInference.dfy` are the
editable tree; `SlaComposerTrees.dfy` says what a tree asks of a response.

**The small protocols.** The callback rendezvous as a Durable Object and as an in-memory map (`Rendezvous*.dfy`),
the two evidence stores (`Evidence*.dfy`), the byte-budget loop (`RelayPayload.dfy`) and the bytes it counts, those
of the JSON text in UTF-8 (`RelayBytes.dfy`), address literals (`AddressLiterals.dfy`), USDC amounts
(`UsdcAmounts.dfy`), the chunked log scan (`LogScan.dfy`) and the scores computed from it (`Reputation.dfy`).

## What the proofs found

- **An account that funds a deposit while one of its own refunds is undelivered can strand a refund.** The judge
  counts escrow that is already on its way out a second time. After careful runs a funding leads to a release the token
  refuses, with everybody only winding down from there, exactly when one of the sender's releases was undelivered, and
  a filing exactly when its own guard fails once what is on its way is taken off (`CarelessFunding.FundingStrandsIff`,
  `FilingStrandsIff`); `OneRefundIsStranded` is a whole run in every deployment with a token. Under the discipline the
  comment at lines 521-523 of the contract points at, every release of every run is paid
  (`ClaimSolvency.EveryReleaseIsPaid`).
- **The constructor's rule `cooldown >= 2 * window` outlasts the exposure only for windows of 600 s or more**, because
  the request time is rounded down to a 600 s bucket; the exact bound is `cooldown >= window + 600`
  (`ClaimRules.CooldownSuffices`). Below it a withdrawal can be paid before a claim on a call that was already on record
  at the request, also in runs by careful accounts (`ClaimScenarios.WithdrawalsAreSafeIff`).
- **The composer can drop a promise**, contrary to the comment above `schemaToNode`: a list-valued `type` is neither
  shown nor carried along, bounds and declared required names of a node without one named type are lost, and an object
  that requires both declared and undeclared names keeps only the undeclared ones (`SlaComposerLosses.NullableIsDropped`
  and `DeclaredPromiseIsDropped` are two schemas). The written schema never becomes stricter. Where shown nodes have no
  `const`, `enum` or `oneOf` and everything shown can occur, the meaning is kept exactly when every shown node is
  faithful, at whatever depth the loss is (`MeaningKeptIff`).
- **An unchanged SLA does not always republish as the same bytes**, although the comment at lines 76-78 of
  `sla-draft.js` says so: it does exactly when it is written in the tree's own order and nothing in it is dropped
  (`SlaComposerText.SameTextIff`; `OrderIsRewritten` is one that does not). What the composer itself has written does
  (`WrittenStays`).
- `withdraw_deposit` reads the clock whenever a withdrawal was requested, also with claims open, although its comment
  at lines 392-393 says the cheap checks come first. A failed read is reported exactly then
  (`ClaimJudge.ClockIsReadOnRequest`), and with claims open the comment holds exactly while no withdrawal is requested
  (`OpenClaimsNeedNoReadIff`); a run to where it does not is in `ClaimScenarios.FailedReadHidesTheOpenClaim`.
- A withdrawal request is remembered as its rounded time, and zero means none; so one made before the clock's second
  600 s bucket can be neither stood down nor withdrawn on (`ClaimAnswers.StandDownAnswers`, `WithdrawAnswers`).
- A cut can make the relayed payload larger, and does so exactly when all it takes off is the low half of a surrogate
  pair (`RelayPayload.CutGrowsIff`, `OneCutCanGrowThePayload`); two cuts always suffice.
- `parseIPv6`, called directly, accepts a dotted quad before the `::` and a `::` over no zeros at all
  (`AddressLiterals.QuadBeforeTheGap`, `GapForNothing`), which section 2.2 of RFC 4291 does not allow; `ConformsIff`
  says exactly which accepted texts that section allows. `isPrivateHost` never passes it such a text, because it is
  given the `URL.hostname`, which is normalised already. The model follows the code, and
  `OnlySpellingsParse` says exactly what is accepted.

## Model

| member | source | states |
|---|---|---|
| Token.SettlementToken.Mint | genlayer/contracts/settlement_token.py:46-55 | Mints to the caller up to the limit, refuses anything else, and changes nothing besides its balance and the supply |
| Token.SettlementToken.Transfer | genlayer/contracts/settlement_token.py:57-62 | Moves only what no custodian holds a claim on; the whole new storage is stated |
| Token.SettlementToken.Escrow | genlayer/contracts/settlement_token.py:64-81 | Hands the custodian authority over unescrowed balance, moving nothing |
| Token.SettlementToken.Release | genlayer/contracts/settlement_token.py:83-107 | The custodian moves escrowed tokens of the owner to anybody, the owner included; refusals change nothing |
| Token.SettlementToken.TotalEscrowed | genlayer/contracts/settlement_token.py:131-132 | The loop over an owner's custodians adds up exactly that owner's escrow |
| Token.ReachableIsSound | genlayer/contracts/settlement_token.py:46-107 | After any sequence of calls by anyone: balances add up to the supply, and each owner's total escrow is within its balance |
| Token.ReleaseNeverUnderflows | genlayer/contracts/settlement_token.py:83-107 | In a sound state a release succeeds exactly when its amount is positive and within that custodian's escrow |
| Token.BucketAuthority | genlayer/contracts/settlement_token.py:64-107 | A bucket grows only by its owner's own escrow call and shrinks only by a release of the custodian it names, by exactly the amount |
| Token.BalanceAuthority | genlayer/contracts/settlement_token.py:46-107 | A balance falls only by its owner's transfer or by a release out of escrow handed to the caller, and always by what another balance gains |
| Token.ReleaseMoves | genlayer/contracts/settlement_token.py:83-107 | A release changes every balance and every escrow by the stated movement, zero for a self-release |
| Token.CallsGoThrough | genlayer/contracts/settlement_token.py:46-107 | Exactly when each call succeeds: a mint from 1 to 10^12 units, a transfer or escrow exactly up to the balance less all that custodians hold a claim on, a release exactly up to that custodian's escrow |
| Token.CallMoves | genlayer/contracts/settlement_token.py:46-107 | What each call that goes through does to every balance, every escrow and the supply: mint adds to the caller, transfer moves, escrow adds to one bucket, release takes from one and moves |
| ClaimRules.CanonicalIsStable | genlayer/contracts/sla_claim_judge.py:928-931 | The canonical spelling of a request id is its own canonical spelling |
| ClaimRules.RequestIdsAre | genlayer/contracts/sla_claim_judge.py:962-965 | A request id is exactly `0x` and 64 hex digits |
| ClaimRules.CanonicalIgnoresCase | genlayer/contracts/sla_claim_judge.py:924-931 | Two spellings of a request id are filed under one id exactly when they differ only in the case of hex letters |
| ClaimRules.ClaimKeyInjective | genlayer/contracts/sla_claim_judge.py:924-931 | Two claims under canonical ids share a storage key only if they dispute the same clause of the same call, whatever characters clause ids contain |
| ClaimRules.SettlementFor | genlayer/contracts/sla_claim_judge.py:1047-1082 | Nobody pays more than its means; compensation comes before the bounty; a shortfall is never passed to the other side; other outcomes pay nothing |
| ClaimRules.Bucketed | genlayer/contracts/sla_claim_judge.py:578-611 | The agreed time is a multiple of 600 s, at most one bucket behind the clock and never ahead of it |
| ClaimRules.CooldownSuffices | genlayer/contracts/sla_claim_judge.py:182-186 | No verdict on record at a withdrawal request can still be filed on when the cooldown is up, for all times, if and only if cooldown >= window + 600; the constructor's rule gives this for windows of 600 s or more and not below |
| ClaimJudgeContract.SlaClaimJudge.Deploy | genlayer/contracts/sla_claim_judge.py:157-187 | Deployment is refused exactly when the cooldown is below twice the window; otherwise storage starts empty |
| ClaimJudgeContract.SlaClaimJudge.FundDeposit | genlayer/contracts/sla_claim_judge.py:190-249 | Binds all of the sender's escrow that is neither another deposit nor a bond, clears the cooldown, and refuses in the source's order without changing storage |
| ClaimJudgeContract.SlaClaimJudge.Allocate | genlayer/contracts/sla_claim_judge.py:226-240 | The checks in order and the amount that would be allotted, changing nothing |
| ClaimJudgeContract.SlaClaimJudge.SubmitClaim | genlayer/contracts/sla_claim_judge.py:251-317 | Files a frozen claim under its key with the bond reserved, or refuses in the source's order |
| ClaimJudgeContract.SlaClaimJudge.ResolveClaim | genlayer/contracts/sla_claim_judge.py:319-331 | Closes an open claim with any judged outcome and settles it; an aborted judgement changes nothing |
| ClaimJudgeContract.SlaClaimJudge.CancelClaim | genlayer/contracts/sla_claim_judge.py:409-436 | The claimant closes an open claim once the adjudication window has lapsed, and settles it |
| ClaimJudgeContract.SlaClaimJudge.CloseAndSettle | genlayer/contracts/sla_claim_judge.py:488-556 | The decision, the totals, the deposit and the emitted releases in their order, as the settlement function says |
| ClaimJudgeContract.SlaClaimJudge.Available | genlayer/contracts/sla_claim_judge.py:502-524 | What a settlement may draw on: the deposit and the bond, each clamped to the escrow held |
| ClaimJudgeContract.SlaClaimJudge.PayOut | genlayer/contracts/sla_claim_judge.py:526-556 | Compensation, bounty and surplus are emitted in that order and the clamped totals written |
| ClaimJudgeContract.SlaClaimJudge.RequestWithdrawal | genlayer/contracts/sla_claim_judge.py:333-368 | Starts the cooldown at the bucketed clock for the depositor of a funded slug only |
| ClaimJudgeContract.SlaClaimJudge.CancelWithdrawal | genlayer/contracts/sla_claim_judge.py:370-376 | Stands a pending withdrawal down |
| ClaimJudgeContract.SlaClaimJudge.WithdrawDeposit | genlayer/contracts/sla_claim_judge.py:378-407 | Releases the slug's own share to its depositor once no claim is open and the cooldown has elapsed; refusals in the code's order |
| ClaimJudgeContract.SlaClaimJudge.RequireDepositor | genlayer/contracts/sla_claim_judge.py:570-576 | Answers whether the caller is the account that backs the slug |
| ClaimJudgeContract.SlaClaimJudge.RequireOpen | genlayer/contracts/sla_claim_judge.py:639-645 | Answers whether the claim exists and is unresolved |
| ClaimJudge.ClockIsReadOnRequest | genlayer/contracts/sla_claim_judge.py:388-399 | A failed clock read is reported exactly to a depositor whose withdrawal is requested, whether or not claims are open |
| ClaimJudge.OpenClaimsNeedNoReadIff | genlayer/contracts/sla_claim_judge.py:388-399 | With claims open, the refusal for it comes without needing the clock, as the comment promises, exactly while no withdrawal is requested |
| ClaimScenarios.FailedReadHidesTheOpenClaim | genlayer/contracts/sla_claim_judge.py:388-399 | In every deployment with a token, for every slug and request id: a run from deployment by careful accounts after which a claim against the slug stands open, its depositor is refused for it at every time the clock reads, and is told that the read failed when it fails |
| ClaimBookkeeping.ReachableIsConsistent | genlayer/contracts/sla_claim_judge.py:226-317 | In every reachable state, whatever the token answers each time: bonded is the sum of open bonds per claimant, open_claims counts open claims per slug, an owner's deposits are within deposit_committed, and claim_keys lists each claim once under its own key |
| ClaimBookkeeping.KeysInjective | genlayer/contracts/sla_claim_judge.py:272-317 | In a consistent state two keys on file never hold the same call and clause |
| ClaimBookkeeping.NoOpenClaims | genlayer/contracts/sla_claim_judge.py:388-399 | The counter a withdrawal checks reads zero exactly when no claim on file against the slug is unresolved |
| ClaimBookkeeping.RunEvolves | genlayer/contracts/sla_claim_judge.py:319-331 | Across any two moments of a run a claim keeps everything it was filed with, and leaves OPEN at most once, to an outcome that then stands |
| ClaimBookkeeping.ClosingSettles | genlayer/contracts/sla_claim_judge.py:319-436 | Whichever of the two ways closes a claim, storage changes as the settlement of exactly that claim, with the outcome and reasoning of the judgement, or as CANCELLED by its claimant |
| ClaimBookkeeping.ClampsAreInert | genlayer/contracts/sla_claim_judge.py:488-556 | The max(0, ...) clamps of settling and withdrawing, and the subtraction in funding, never bite in a consistent state, whatever the token answers |
| ClaimProtocol.PayoutsSum | genlayer/contracts/sla_claim_judge.py:526-556 | Any additive measure of the emitted releases equals that measure of the transfers the settlement figures name |
| ClaimProtocol.EscrowClampsAreInert | genlayer/contracts/sla_claim_judge.py:502-524 | In a solvent world the escrow clamps never bite: the whole deposit and the whole bond are there to draw on |
| ClaimSolvency.FundKeepsSolvencyIff | genlayer/contracts/sla_claim_judge.py:226-249 | A successful funding keeps the sender solvent if and only if none of its releases is undelivered |
| ClaimSolvency.SubmitKeepsSolvencyIff | genlayer/contracts/sla_claim_judge.py:272-317 | A successful filing keeps the sender solvent if and only if the code's own guard still holds with the undelivered releases taken off the escrow, or the bond is zero; so always for a sender with none |
| ClaimSolvency.JudgeStepLiability | genlayer/contracts/sla_claim_judge.py:190-436 | No judge call but the account's own funding or filing adds to what is held against its escrow |
| ClaimSolvency.DeliverySucceeds | genlayer/contracts/settlement_token.py:83-107 | In a solvent world every pending release goes through, whichever is delivered next |
| ClaimSolvency.CarefulRunsAreSolvent | genlayer/contracts/sla_claim_judge.py:515-524 | In every interleaving of token calls, judge calls, ticks and deliveries by careful accounts, for each owner deposits + bonds + undelivered releases are within the escrow held, also when provider, claimant and resolver coincide |
| ClaimSolvency.EveryReleaseIsPaid | genlayer/contracts/sla_claim_judge.py:567-568 | Hence every release the judge emits in such a run succeeds at the token |
| CarelessFunding.FundingStrandsIff | genlayer/contracts/sla_claim_judge.py:226-249 | After any careful run, a funding that goes through leaves a way of winding down (closing claims, withdrawing, delivering; nobody funds, files or touches the token) to a release the token refuses, if and only if one of the sender's releases was undelivered |
| CarelessFunding.FilingStrandsIff | genlayer/contracts/sla_claim_judge.py:272-317 | And a filing, if and only if the bond is positive and the escrow its own guard looks at, less what is on its way out, is short of it |
| CarelessFunding.OneRefundIsStranded | genlayer/contracts/sla_claim_judge.py:226-249 | In every deployment with a token some run from deployment ends with a pending release that the token refuses |
| ClaimLedger.AnyOrderSettles | genlayer/contracts/sla_claim_judge.py:567-568 | From a solvent world, delivering the pending releases in any order pays all of them and ends in the same balances and escrows |
| ClaimLedger.SettlementLedger | genlayer/contracts/sla_claim_judge.py:488-556 | A judgement that goes through puts exactly these movements on their way, by the outcome it gives: on BREACH min(paid, deposit) to the claimant, then the bounty from what remains; on MET min(bounty, bond) to the resolver; otherwise, and on a cancellation, none; and the bond's remainder back to the claimant; the compensation and bounty written on the claim are these |
| ClaimOrigins.ClaimsTellTheirCalls | genlayer/contracts/sla_claim_judge.py:272-436 | In every run each claim on file was filed by one earlier call and carries that call's sender, slug, clause, signature and criteria, the paid amount of the verdict then read, which was of the slug's service and recent enough, and the clock rounded down to 600 s; a decided one was decided by one later call: a judgement, whose outcome and reasoning it carries, or its own claimant's cancellation 86400 s or more after filing |
| ClaimOrigins.ClaimsAreListedInOrder | genlayer/contracts/sla_claim_judge.py:308-317 | The list of claim keys only grows at its end: it is in the order of filing, in every run |
| ClaimOrigins.ClaimsArePaid | genlayer/contracts/sla_claim_judge.py:488-556 | In every careful run a decided claim was paid the lesser of what the call had cost, as the registry said when the claim was filed, and the deposit at the decision, on BREACH alone; and the resolver the bounty from what remained or, on MET, from the bond |
| ClaimClamps.ClosingReleases | genlayer/contracts/sla_claim_judge.py:488-556 | In any state, also where an account is short: closing a claim emits exactly compensation, bounty and what is left of the bond, in that order and where positive, each paid out of the lesser of what is recorded and what the token still holds, so that no release asks for more than is held; and writes these figures |
| ClaimAnswers.FundAnswers | genlayer/contracts/sla_claim_judge.py:226-249 | Exactly when a funding goes through, and that it allots all the sender holds beyond its other deposits and open bonds, leaving other slugs alone |
| ClaimAnswers.SubmitAnswers | genlayer/contracts/sla_claim_judge.py:272-317 | Exactly when a filing goes through and which obstacle it names, in terms of the file, the escrow held and what is bound by deposits and open bonds, and the verdict read |
| ClaimAnswers.ResolveAnswers | genlayer/contracts/sla_claim_judge.py:319-331 | Exactly when a resolution goes through: an open claim on file under any spelling of the id and a judgement of BREACH, MET or UNDETERMINED |
| ClaimAnswers.CancelAnswers | genlayer/contracts/sla_claim_judge.py:409-436 | Exactly when a cancellation goes through, and which obstacle it names: no such claim, decided, not the claimant's, a failed read, within a day of filing |
| ClaimAnswers.OpenClaimsCanBeCancelled | genlayer/contracts/sla_claim_judge.py:409-436 | In every run an open claim can be cancelled by its claimant and nobody else, exactly from 86400 s after its filing time on |
| ClaimAnswers.RequestAnswers | genlayer/contracts/sla_claim_judge.py:333-368 | A withdrawal request goes through exactly for the depositor of a funded slug whose clock read succeeds; the order of the refusals |
| ClaimAnswers.StandDownAnswers | genlayer/contracts/sla_claim_judge.py:370-376 | A stand-down goes through exactly for the depositor while a request stands in the log, one made before the clock's second bucket aside |
| ClaimAnswers.WithdrawAnswers | genlayer/contracts/sla_claim_judge.py:378-407 | In every state a run reaches: exactly when a withdrawal goes through, told from the file and the event log, which obstacle is named otherwise, and that it pays the slug's deposit to its depositor |
| ClaimHistory.DepositsBalance | genlayer/contracts/sla_claim_judge.py:226-556 | Slug by slug in every careful run: allotted at the last funding = what is left + everything settlements and withdrawals have paid out since |
| ClaimDeposits.DepositsAreCommitted | genlayer/contracts/sla_claim_judge.py:226-249 | In every state careful accounts reach, an owner's deposits add up to exactly its committed total |
| ClaimHistory.WithdrawalsAreSafe | genlayer/contracts/sla_claim_judge.py:333-407 | In every run, careful or not, a withdrawal that paid stands on an earlier request with no funding, stand-down or withdrawal of that slug since, no open claim, and no later claim about a call whose verdict was on record at the request |
| ClaimScenarios.WithdrawalsAreSafeIff | genlayer/contracts/sla_claim_judge.py:182-186 | Over all runs, and over all careful runs: every withdrawal is safe in that sense if and only if there is no token or cooldown >= window + 600 |
| ClaimScenarios.ShortCooldownLeaks | genlayer/contracts/sla_claim_judge.py:182-186 | Below that bound, a careful run that withdraws a deposit and then files a claim on a call whose verdict was on record at the request |
| JsonValues.DeepEqualIsSame | packages/sla/jsonschema.js:185-196 | deepEqual holds exactly between values equal up to the order of object members, at every depth |
| JsonValues.SameReflexive | packages/sla/jsonschema.js:185-196 | That equality is reflexive on JavaScript values |
| JsonValues.SameSymmetric | packages/sla/jsonschema.js:185-196 | It is symmetric |
| JsonValues.SameTransitive | packages/sla/jsonschema.js:185-196 | It is transitive |
| JsonValues.SortedKeysCanonical | packages/sla/jsonschema.js:191-192 | Sorted keys are the same list for any two objects with the same keys |
| JsonValues.LessMeans | packages/sla/jsonschema.js:186-197 | The order names are visited in is the order of their first differing character, a prefix first |
| JsonPointers.RenderedPointersRead | packages/sla/jsonschema.js:52-59 | A pointer built with escapeToken and child, read by sections 3 and 4 of RFC 6901, gives back the path it was built from, whatever the names contain |
| JsonPointers.RenderedAsWritten | packages/sla/jsonschema.js:52-59 | A pointer is each token after a `/`, with `~` written `~0` and `/` written `~1`, as section 3 of RFC 6901 has it |
| JsonSchemaMeaning.CheckMeans | packages/sla/jsonschema.js:218-300 | On every schema assertSchema admits validate never throws, and returns null exactly when the value satisfies every keyword read without order |
| JsonSchemaKeywords.AdmittedIffUnderstood | packages/sla/jsonschema.js:71-128 | A schema is admitted exactly when every part of it, along any path of properties, items, additionalProperties and branches, uses only the listed keywords with values they can mean |
| JsonSchemaKeywords.SatisfiesMeans | packages/sla/jsonschema.js:218-300 | A value satisfies an admitted schema exactly when it keeps each keyword, said name by name: type by kind of value, bounds by size, required by name, declared and undeclared members each by their own rule, exactly one branch |
| JsonSchemaFirst.FirstFailure | packages/sla/jsonschema.js:218-300 | The failure reported is the first there is: everything tried before it holds, in the order of keywords, indices and sorted names; `expected` names a keyword of the part that governs the place, with its value, which the value there breaks, and `actual` is that value's description, size or number of matching branches |
| JsonSchemaReports.ReportIgnoresMemberOrder | packages/sla/jsonschema.js:218-300 | Reordering members anywhere inside the value leaves the whole failure (pointer, expected, actual) identical |
| JsonSchemaReports.FailureIsLocated | packages/sla/jsonschema.js:204-300 | Every failure blames a place: following its pointer through properties, items and additionalProperties leads to a part of the schema and a value, and that part rejects that value with exactly this failure by its own keywords or its oneOf, or is the `false` that forbids the member, or requires the missing name the pointer ends in |
| JsonSchemaReports.ReportedPointerLeadsThere | packages/sla/jsonschema.js:53-59 | The reported pointer text itself, read by RFC 6901, is the path of the place to blame |
| JsonSchemaReports.BlamedValueFails | packages/sla/jsonschema.js:204-300 | The value found at the blamed place does not satisfy the part of the schema that governs it, or nothing may stand there |
| JsonSchemaEngine.AssertSchema | packages/sla/jsonschema.js:71-128 | The recursive walk accepts exactly the schemas inside the subset, unreachable branches included |
| JsonSchemaEngine.AssertProperties | packages/sla/jsonschema.js:112-117 | Its loop over properties visits every one |
| JsonSchemaEngine.AssertBranches | packages/sla/jsonschema.js:122-127 | Its loop over oneOf branches visits every one |
| JsonSchemaEngine.Validate | packages/sla/jsonschema.js:218-300 | The early-return code reports what the specification function reports, terminating on schema size |
| JsonSchemaEngine.ValidateItems | packages/sla/jsonschema.js:259-264 | Elements are checked in index order up to the first failure |
| JsonSchemaEngine.ValidateProperties | packages/sla/jsonschema.js:274-279 | Declared members are checked in sorted order up to the first failure |
| JsonSchemaEngine.ValidateAdditional | packages/sla/jsonschema.js:280-291 | Undeclared members are checked in sorted order up to the first failure |
| JsonSchemaEngine.ValidateOneOf | packages/sla/jsonschema.js:293-298 | Exactly one branch must conform; all are tried |
| JsonSchemaEngine.MissingMember | packages/sla/jsonschema.js:267-273 | The first absent required name, in listed order |
| SlaComposerEditor.ReadSchema | web/src/forms/sla-draft.js:101-125 | Filling the draft field by field gives the tree of the schema |
| SlaComposerEditor.ReadRequired | web/src/forms/sla-draft.js:105-105 | The set of required names in first-seen order |
| SlaComposerEditor.ReadOrphans | web/src/forms/sla-draft.js:116-118 | The required names no declared property carries |
| SlaComposerEditor.ReadExtras | web/src/forms/sla-draft.js:119-123 | The keyword loop keeps verbatim exactly what the tree has no control for |
| SlaComposerEditor.ReadRows | web/src/forms/sla-draft.js:106-109 | One row per declared property, flagged by its parent's required list |
| SlaComposerEditor.WriteSchema | web/src/forms/sla-draft.js:72-91 | Filling the schema object keyword by keyword gives the schema of the tree |
| SlaComposerEditor.WriteRequired | web/src/forms/sla-draft.js:79-81 | The promised names of the fields that are not ignored |
| SlaComposerEditor.WriteEntries | web/src/forms/sla-draft.js:79-82 | One property per field that is not ignored |
| SlaComposerMeaning.RoundTripLookup | web/src/forms/sla-draft.js:72-125 | Keyword by keyword, what the schema written back says, for every admitted schema |
| SlaComposerRoundTrip.RoundTripMeans | web/src/forms/sla-draft.js:72-125 | Unconditionally, what an admitted schema accepts its round trip accepts; and when every node the tree shows is faithful, nothing more |
| SlaComposerLosses.MeaningKeptIff | web/src/forms/sla-draft.js:94-125 | For a schema without `const`, `enum` and `oneOf` at the nodes the tree shows, where everything shown can occur: the round trip accepts exactly the same values if and only if every shown node is faithful, however deep |
| SlaComposerLosses.LostToTypes | web/src/forms/sla-draft.js:103-103 | A list of types that leaves one out: a value of that type is accepted afterwards |
| SlaComposerLosses.LostToBounds | web/src/forms/sla-draft.js:110-114 | A bound on a node without one named type: a value outside it is accepted afterwards |
| SlaComposerLosses.LostToRequired | web/src/forms/sla-draft.js:116-120 | A declared required name lost to undeclared ones or to a missing type: an object without it is accepted afterwards |
| SlaComposerLosses.LostInProperty | web/src/forms/sla-draft.js:106-109 | A value newly accepted by one property, with a value filled in for each other one, is newly accepted by the object |
| SlaComposerLosses.LostInItems | web/src/forms/sla-draft.js:110-110 | A value newly accepted by the items, repeated as often as the bounds ask, is newly accepted by the array |
| SlaComposerLosses.NullableIsDropped | web/src/forms/sla-draft.js:94-103 | The schema {"type": ["string", "null"]} is written back as {}, which accepts numbers |
| SlaComposerLosses.DeclaredPromiseIsDropped | web/src/forms/sla-draft.js:116-120 | An object that requires one declared and one undeclared name is written back accepting objects without the declared one |
| SlaComposerText.TreeComesBack | web/src/forms/sla-draft.js:72-125 | Every tree as the composer shows it is read back, field for field and in order, from the schema written for it |
| SlaComposerText.WrittenStays | web/src/forms/sla-draft.js:76-78 | What the composer has written is written back as the same text |
| SlaComposerText.SameTextIff | web/src/forms/sla-draft.js:76-78 | An admitted schema is written back as the same text, member order included, if and only if it is written the tree's way at every node the tree shows: type, required, properties, items and bounds in this order, then the rest; nothing the tree drops; required names nonempty and either declared and in declared order, or undeclared and distinct |
| SlaComposerText.OrderIsRewritten | web/src/forms/sla-draft.js:76-78 | A faithful schema, a bound before its type, that is written back as another text |
| SlaComposerAdmitted.RoundTripAdmitted | web/src/forms/sla-draft.js:72-125 | What the composer writes back for an admitted schema, the engine admits again |
| SlaComposerAdmitted.EditingPreservesVerdicts | web/src/forms/sla-draft.js:72-125 | So republishing never fails a value that passed, and at a faithful schema validate answers null on exactly the same values |
| SlaInference.SampleFits | web/src/forms/sla-draft.js:54-91 | A response satisfies the schema inferred from it if and only if, along everything it was inferred from, array elements fit the schema of the first |
| SlaComposerTrees.TreeMeans | web/src/forms/sla-draft.js:72-91 | The schema written from a tree made with the controls accepts exactly what the tree asks: the type and bounds of each field, promised members present, shown members and elements accepted in turn, ignored fields asking nothing |
| SlaComposerTrees.SampleMeans | web/src/forms/sla-draft.js:54-91 | The schema inferred from a response accepts exactly the responses of its shape: the same kinds, every member of its objects, elements like the first |
| SlaInference.LooseningAccepts | web/src/forms/sla-draft.js:72-91 | Clearing required, clearing bounds, or ignoring fields of objects that allow unknown members, on any nodes of any tree at any depth, refuses no value that was accepted |
| SlaInference.TreeAdmitted | web/src/forms/sla-draft.js:72-91 | Every tree with known types, admitted extra keywords and whole non-negative length bounds is written as a schema the engine admits |
| SlaInference.SamplePasses | web/src/forms/sla-draft.js:54-91 | Hence validate passes a uniform response against its inferred schema and against every loosening of it |
| UsdcAmounts.MinorUnitsRoundTrip | web/src/forms/sla-draft.js:137-154 | usdcToMinorUnits(minorUnitsToUsdc(n)) = n for every canonical integer string, of any length |
| UsdcAmounts.AmountsRoundTrip | web/src/forms/sla-draft.js:137-154 | The other composition gives the canonical spelling of the same amount, and leaves a canonical amount as it is |
| UsdcAmounts.CanonicalAmountUnique | web/src/forms/sla-draft.js:21-24 | Two canonical spellings of one amount are the same text |
| UsdcAmounts.AmountsMean | web/src/forms/sla-draft.js:137-142 | An amount so written is stored as the number of millionths it stands for |
| UsdcAmounts.OnlyAmountsAreTaken | web/src/forms/sla-draft.js:137-142 | A text is taken only if, but for spaces around it, it is digits, or digits, a point and one to six digits |
| UsdcAmounts.TrimMeans | web/src/forms/sla-draft.js:137-138 | Trimming takes off the spaces at both ends of a text and nothing else |
| SlaEvaluation.AssertSlaDocument | packages/sla/index.js:65-93 | The loop with its set of seen ids reports a problem of the first clause that has one after everything before it, as the kind of problem it is, and none exactly when the document is enforceable |
| SlaEvaluation.FirstProblemMeans | packages/sla/index.js:71-92 | No problem is found exactly when ids are distinct, none is `delivery`, every schema is in the subset and every price range is in order, whatever the clause order |
| SlaEvaluation.FirstProblemIs | packages/sla/index.js:65-93 | The problem reported is that of the first clause at fault: a reserved id, an id used before, a schema outside the subset, a bound that is no decimal, or bounds reversed |
| SlaEvaluation.ResultsMean | packages/sla/clauses.js:65-124 | On an enforceable document every clause gets one result under its own id, in order, passing exactly when the promise was kept, with the failure of its schema if not; semantic clauses always pass |
| SlaEvaluation.ResultsIgnoreMemberOrder | packages/sla/clauses.js:66-76 | The results do not depend on the member order of the response body |
| SlaVerdicts.VerdictMeans | cre/lib/judge.js:60-99 | With an applicable SLA: no response is DOWN, a 5xx is FAIL, both naming `delivery`; otherwise the first broken promise in declared order is FAIL and is the clause named, never a semantic one; otherwise PASS |
| SlaVerdicts.DeclinesExactly | cre/lib/judge.js:60-120 | Judging always answers; a verdict is written exactly unless the status is 402, or no record applies and the status is neither 2xx nor 5xx |
| SlaVerdicts.WhenJudged | cre/lib/judge.js:60-99 | A 402 is never judged, whatever is on record; judging throws exactly for another call whose status or measurements are out of range |
| SlaVerdicts.StatusAloneDecides | packages/sla/index.js:163-170 | Without a record that applies, and but for a 402: DOWN exactly when nothing arrived, PASS exactly for a 2xx, FAIL exactly for a 5xx, no clause named, and the reason given: unreadable, empty or unusable |
| SlaVerdicts.JudgementIgnoresMemberOrder | cre/lib/judge.js:60-99 | The judgement does not depend on the member order of the response body |
| SlaVerdicts.NamedClauseComesBack | packages/sdk/registry.js:135-143 | For every record text and observation, the named clause is written as its hash, none as zero, and resolved against the same SLA comes back as the same id or none |
| SlaVerdicts.RecognisedWhileDeclared | packages/sdk/registry.js:113-143 | Against any other SLA a recorded id is recognised exactly while it is declared there or is `delivery`, and is otherwise reported unknown |
| RelayPayload.FitToBudget | cre/lib/relay-payload.js:71-92 | The body is a prefix, flagged exactly when cut; each cut takes off as many units as there are bytes too many, the second from what the first left; over budget only when nothing is left; at most two cuts, so eight attempts never bind; at most two units beyond the overflow are lost |
| RelayBytes.CountedAsSent | cre/lib/relay-payload.js:41-78 | The bytes counted for a body are the bytes of its JSON text in UTF-8, escapes and surrogate pairs included |
| RelayBytes.PayloadSize | cre/lib/relay-payload.js:41-78 | The size compared with the budget is the number of bytes of the payload: what surrounds the body, the UTF-8 of its JSON text, and `true` or `false` |
| RelayBytes.BodyArrives | cre/lib/relay-payload.js:41-78 | The bytes of the body's JSON text, decoded as UTF-8 and read as a JSON string, give the body unit for unit, lone surrogates included |
| RelayPayload.CutSaves | cre/lib/relay-payload.js:78-83 | Cutting n units saves at least n bytes of the escaped payload, less three when the cut splits a surrogate pair |
| RelayPayload.SplitCosts | cre/lib/relay-payload.js:49-50 | Half a pair costs two bytes more than the whole pair |
| RelayPayload.CutGrowsIff | cre/lib/relay-payload.js:80-84 | For every body and every shorter prefix: the flagged prefix makes a larger payload than the whole body if and only if what is cut off is the low half of a surrogate pair and nothing else |
| RelayPayload.OneCutCanGrowThePayload | cre/lib/relay-payload.js:80-84 | A body one byte over budget whose first cut, as the loop computes it, makes the payload larger |
| Rendezvous.OneEventWins | proxy/src/pending-do.js:44-106 | For every interleaving of one wait with settles, cancels and the timer: a settle or cancel reports delivered exactly when it is the first event able to answer, the waiter is told that callback's result, that cancellation's reason, or that time is up, and no request has two winners |
| Rendezvous.NothingToldUntilAnswered | proxy/src/pending-do.js:81-106 | While no event could answer a request, neither registry tells its waiter anything |
| Rendezvous.ObjectsRefineTheMap | proxy/src/pending-do.js:81-106 | The Durable Objects answer every settle and cancel as the map registry does, also for a callback between registration and wait, and tell each waiter the same |
| Rendezvous.CallbackIsNotLost | proxy/src/verification.js:146-150 | Because verify registers before it triggers, a callback is accepted unless the waiter was already answered |
| Rendezvous.TriggerFirstLosesTheCallback | proxy/src/verification.js:147-150 | In the other order a fast callback is refused and its payload lost |
| RendezvousObjects.PendingVerification.FinishWith | proxy/src/pending-do.js:93-106 | Only the first answer to a registered request is kept, its timer is cleared and its waiter told |
| RendezvousObjects.PendingVerification.Wait | proxy/src/pending-do.js:81-90 | An answer that came first is returned at once; otherwise the waiter and its timer are set |
| RendezvousObjects.PendingVerification.Settle | proxy/src/pending-do.js:55-58 | A callback is reported delivered exactly when it finishes the request |
| RendezvousObjects.PendingVerification.Cancel | proxy/src/pending-do.js:59-64 | So is a cancellation |
| RendezvousObjects.PendingVerification.Fire | proxy/src/pending-do.js:85-85 | A timer that was not cleared finishes the request as timed out |
| RendezvousObjects.PendingRegistry.Await | proxy/src/verification.js:72-98 | The map gains the waiter and its timer is armed; waiters and timers stay in step |
| RendezvousObjects.PendingRegistry.Settle | proxy/src/verification.js:110-115 | A payload goes to the waiter of that id, which is then gone; false when there is none |
| RendezvousObjects.PendingRegistry.Cancel | proxy/src/verification.js:125-130 | A failure goes to the waiter of that id, which is then gone; false when there is none |
| RendezvousObjects.PendingRegistry.Fire | proxy/src/verification.js:74-82 | The timer removes the waiter and fails it |
| RendezvousObjects.Verify | proxy/src/verification.js:146-209 | A callback that lands before the trigger is answered is kept; a refused trigger leaves no waiter behind; other requests are untouched |
| EvidenceStores.StoresAgree | proxy/src/evidence-do.js:43-79 | Under any stores, reads, clock advances and arbitrarily late alarms the Durable Object and the map give the same answers |
| EvidenceStores.FirstReadServed | proxy/src/evidence.js:171-188 | A first read is answered exactly until the filing deadline |
| EvidenceStores.LaterReadServed | proxy/src/evidence.js:186-199 | After a first read in time, reads are answered exactly until the later of the filing deadline and the runway from that read: it never moves earlier, only the first read extends it, and the life is within both windows together |
| EvidenceStores.EveryReadServed | proxy/src/evidence.js:171-199 | Every read of a stored envelope is the first one or follows a first one, and is answered exactly until the deadline that belongs to its case |
| EvidenceObjects.EvidenceCache.Store | proxy/src/evidence-do.js:43-48 | Storage is replaced, undisclosed, with the alarm at its deadline |
| EvidenceObjects.EvidenceCache.Read | proxy/src/evidence-do.js:51-75 | An expired envelope is not served; a first read keeps the later deadline and moves the alarm with it |
| EvidenceObjects.EvidenceCache.Alarm | proxy/src/evidence-do.js:77-79 | Everything is deleted |
| EvidenceObjects.MemoryEvidenceStore.Store | proxy/src/evidence.js:182-184 | The entry of that id is replaced, undisclosed |
| EvidenceObjects.MemoryEvidenceStore.Read | proxy/src/evidence.js:186-199 | The same decisions on a map entry, deleting an expired one |
| EvidenceObjects.MemoryEvidenceStore.Live | proxy/src/evidence.js:171-179 | A live entry is returned; an expired one is deleted |
| AddressLiterals.ReadIPv6 | proxy/src/http.js:123-157 | The two halves, the gap between them and the length check, as the parse function says |
| AddressLiterals.ReadPart | proxy/src/http.js:127-147 | Bytes pushed group by group are the bytes of the part, or none at the first bad group |
| AddressLiterals.ParseInvertsPrint | proxy/src/http.js:123-157 | Every spelling of an address (leading zeros, either case, one `::`, dotted last 32 bits) is read as exactly its sixteen bytes |
| AddressLiterals.OnlySpellingsParse | proxy/src/http.js:123-157 | Whatever is accepted is such a spelling of what it is read as |
| AddressLiterals.ConformsIff | proxy/src/http.js:123-157 | An accepted text is one of section 2.2 of RFC 4291 if and only if it has no `::`, or the half before it has no dot and the two halves leave at least two bytes to the gap |
| AddressLiterals.ConformsAsSpelled | proxy/src/http.js:123-157 | A spelling conforms exactly when its text does: no text has both a conforming and another spelling |
| AddressLiterals.HexDigitMeans | proxy/src/http.js:126-157 | Each hex digit, in either case, means its place in 0123456789abcdef |
| AddressLiterals.GroupIgnoresCase | proxy/src/http.js:126-157 | A group means the same in upper and in lower case |
| AddressLiterals.OctetMeans | proxy/src/http.js:115-124 | A dotted part is accepted exactly when it is one to three digits of at most 255, and means that number |
| AddressLiterals.QuadsAre | proxy/src/http.js:115-124 | An IPv4 literal is exactly four dot-separated numerals of one to three digits up to 255, and is read as those numbers |
| AddressLiterals.QuadBeforeTheGap | proxy/src/http.js:123-157 | `1.2.3.4::` is accepted and is not of that form |
| AddressLiterals.GapForNothing | proxy/src/http.js:123-157 | `1:2:3:4::5:6:7:8` is accepted and is not of that form |
| AddressLiterals.AcceptedIsBytes | proxy/src/http.js:155-156 | Whatever is accepted is sixteen numbers in 0..255 |
| AddressLiterals.EveryAddressParses | proxy/src/http.js:123-157 | Every sixteen bytes have a spelling that is read back as them |
| AddressLiterals.ClassificationIgnoresSpelling | proxy/src/http.js:180-185 | The answer for a bracketed literal depends on the address alone |
| AddressLiterals.MappedLikePlain | proxy/src/http.js:163-167 | An IPv4 address is sorted alike written plainly, mapped or IPv4-compatible, in any spelling |
| AddressLiterals.PrivateNames | proxy/src/http.js:180-190 | Of names only `localhost` and what ends in `.localhost` are private, in any case of letters |
| AddressLiterals.UnreadableIsPrivate | proxy/src/http.js:180-190 | A bracketed text that is no address is treated as private |
| AddressLiterals.PrivateIPv4Networks | proxy/src/http.js:102-112 | The byte tests are exactly the eight reserved networks they stand for |
| AddressLiterals.PrivateIPv6Blocks | proxy/src/http.js:168-170 | Where neither IPv4 translation applies exactly fc00::/7 and fe80::/10 are private |
| LogScan.BlockRangeChunks | cre/lib/log-range.js:49-60 | The loop pushes the chunks of the range; a width that is not positive is refused |
| LogScan.ChunksCover | cre/lib/log-range.js:49-60 | Chunks are contiguous, ascending, each but the last exactly as wide as allowed, and together exactly the inclusive range; none when the head is behind |
| LogScan.FetchBatch | packages/sdk/arc.js:127-138 | Replies of a batch that arrive in any order fill their own slots |
| LogScan.FetchAll | packages/sdk/arc.js:125-140 | Whatever the number in flight, every chunk's page is in its slot |
| LogScan.Scan | packages/sdk/arc.js:110-142 | The scan equals one filter over the whole inclusive range in block order |
| LogScan.PagesAreTheRange | packages/sdk/arc.js:120-141 | So do the pages in chunk order, for any positive width |
| LogScan.WithinIsAStretch | packages/sdk/arc.js:110-142 | What a node answers for a range is one stretch of the chain: everything before it is below the range and everything after it above |
| Reputation.AggregateWindow | packages/sla/aggregate.js:41-77 | From how often each outcome occurs, without reference to the code's arithmetic: conformance is the whole thousandths of pass in pass + fail, availability those of pass + fail in all, and none where there is nothing to divide by; an unknown outcome is refused |
| Reputation.OneQuotient | packages/sla/aggregate.js:69-75 | There is one number q with q * whole <= 1000 * part < (q + 1) * whole, so the scores are fixed by what is said of them |
| Reputation.OrderNeverShows | packages/sla/aggregate.js:41-77 | The scores depend only on how often each outcome occurs |
| Reputation.PerfectMeansFlawless | packages/sla/aggregate.js:69-75 | A ratio is 1000 exactly when nothing failed, respectively nothing was lost, and never above |
| Reputation.EmptyBuckets | cre/lib/reputation.js:61-65 | A bucket for every service that is not deregistered |
| Reputation.FillBuckets | cre/lib/reputation.js:66-74 | Each verdict of the half-open window lands in the bucket of its service |
| Reputation.ScoreRows | cre/lib/reputation.js:76-82 | One row per occurrence of a service with a bucket, in order; the first unknown outcome refuses the run |
| Reputation.ReputationForWindow | cre/lib/reputation.js:57-83 | The rows computed from the buckets are the specified entries |
| Reputation.EveryListingIsScored | cre/lib/reputation.js:57-83 | Each occurrence of a service whose id is that of an active or suspended one has one entry, in order, whose counts are those of its verdicts with now - window < time <= now and whose ratios are the whole thousandths of those counts, also with no verdicts; refused exactly when such a service has an unknown outcome in the window |
| Reputation.OneEntryPerListing | cre/lib/reputation.js:57-83 | When ids are distinct, these are exactly the active and suspended services |
| Reputation.ScoresIgnoreChunking | cre/lib/reputation.js:61-82 | The scores are those of one filter over the range, however the scan was chunked |
| Reputation.AggregateSemantic | packages/sla/aggregate.js:103-126 | Counts by outcome, and the whole thousandths of met in met + breach: only decided disputes enter the ratio; an unknown settlement is refused |

## Left out

- 256-bit wrap-around of contract integers: amounts are unbounded naturals. The one subtraction that could underflow is modelled as a refusal and proved unreachable.
- The LLM judgement and the agreement of validators on it: any of the three outcomes, or an abort that changes nothing.
- Reads of Arc, of the clock and of the criteria text: arguments of the calls; a failed read is one of their values. A read that succeeds in a run returns the clock of that moment.
- Claims as storage objects: they are values in a map, so aliasing between a claim and its map entry is not captured; the order of the writes is.
- The views of both contracts, `get_claim`, `list_claims`, `get_config`, `get_deposit`, `get_bonded`, `balance_of`, `get_info`: they only read.
- The payer checks commented out for the demonstration deployment, and any access control beyond what the modelled calls check.
- keccak-256: service ids are a free injective constructor, the clause hash any injective function that avoids zero. Other cryptography is not modelled.
- JSON numbers are exact reals; rounding, NaN and infinities are not part of this model, nor is the text a bound passes through (`String` and `Number`) while a field is edited, which is kept as the number.
- Strings are sequences of Dafny characters, not UTF-16 units, except in the byte-budget loop, where surrogates are the point. Member names that look like array indices keep their place, as JavaScript would not let them. Members inherited from a prototype are not part of this model.
- The texts of failures: pointer, expectation and observation are structured data with the same content. Which problem of a schema `assertSchema` names first is not modelled, only whether it accepts.
- `packages/sla/schema.json`: a parsed document is one that it accepts, as typed clauses; descriptions and the asset label play no part.
- The expected and actual texts of clause results, and the truncation of criteria in them.
- SlaComposerRoundTrip.RoundTripMeans: keeping the meaning has the faithfulness of every shown node as a hypothesis; `MeaningKeptIff` makes it an if-and-only-if.
- SlaComposerTrees.TreeMeans: trees with keywords kept verbatim are not covered; what those say is in `RoundTripLookup` and `RoundTripMeans`.
- SlaComposerLosses.MeaningKeptIff: leaves out `const`, `enum` and `oneOf` on shown nodes, beside which a keyword that is lost may have refused nothing, and schemas where something shown can never occur: a property or, beside a lost `maxItems`, elements no value satisfies, bounds that leave no room for an element, a required name that is neither declared nor allowed. Such parts below verbatim keywords are not restricted.
- SlaComposerText.SameTextIff: the text is the list of members at every depth; white space, and how a number is spelled, are not part of this model.
- `draftFromText`, `draftToDocument`, `nodeProblems` and `draftProblems`: form texts and field-by-field copies around the two mappings proved here.
- Rendezvous.ObjectsRefineTheMap: the timeout messages of the two registries differ in wording; only the failure kind is compared. A request id that waits twice is not covered, since `verify` issues each id once.
- EvidenceStores.StoresAgree: each call reads the clock once, and storage writes of one call take effect together with its alarm.
- `parseWorkflowResult`, header copying, `bodyToHex`, URL building and route parsing: they only add easy members. Host names are lowered as ASCII.
- The payload around the body is only its number of bytes; how `JSON.stringify` writes numbers and nesting there is not modelled.
- `getLogs` is a filter over the chain's logs in block order; retries and RPC failures are not modelled. Non-positive widths or concurrency, with which the code would not end, are excluded for `scan`.
- The interface, the wallet, session and formatting code, deployment scripts, runner supervision and the Solidity registry.
