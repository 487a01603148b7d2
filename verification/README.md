# klangk backend: a Dafny model of its hard parts

klangk's backend (`src/klangk/klangk`) hosts workspaces for users. This project models seven
parts of it whose correctness is not visible in any one function body, and proves what they
promise over all inputs, all runs and all interleavings:

- **Passwords** (`EditDistance`): the two-row edit-distance loop behind the password-change rule.
  The reference notion is a path of single edits; the loop computes the length of a shortest path,
  and that length is a metric.
- **Workspace env values** (`EnvTemplate`, `EnvScanner`, `EnvNesting`, `EnvLaws`, `EnvSyntax`): the bash-style
  expander as a small language. The one-pass scanner equals an environment-independent parse into a
  template followed by evaluation; values are copied and never re-scanned; the static nesting gate
  bounds the recursion, tightly.
- **DPoP proofs** (`ProofReplay`, `Der`): proof checking after RFC 9449 with a replay map that purges
  itself, and the DER encoder for raw signatures.
- **Lifecycle** (`Lifecycle`): recycle, recovery of a failed recycle, and TERM/INT shutdown as one
  interleaved state machine over the drain flag, the shutdown flag, the recycle lock and the settings.
- **Audit forwarding** (`AuditForward`, `AuditSweep`, `SdEscape`): at-least-once delivery with batches,
  partial deliveries, interruptions and backoff, and RFC 5424 escaping.
- **Sidecar connections** (`Sidecar`): live sockets and the acks that callers wait on.
- **Access control** (`Acl`): the ordered walk up the resource tree and its batched form.
- **Sessions** (`Sessions`, `SessionLaws`, `Overlap`, `IdleTimeout`, `Lockout`): the session registry
  with its cap and blocklist, rotations that overlap at their awaits, the idle timeout over throttled
  stamps, and the login lockout counter.

Each module holds the operations in the form the source has them (classes and loops where it updates
state, functions where it computes), and lemmas about the specification functions those operations
are proved against. A method that may raise returns a result instead. A stretch of code between two
awaits is one atomic step; in `Lifecycle` a signal handler may also run inside such a stretch.

Results worth knowing that are not in the documentation:

- The nesting gate does not cap nesting at 16: every stray `}` at the front of a value buys one more
  level (`NestingBoundIsTight`). The bound is 16 plus the largest surplus of `}` over `${`.
- Doubling `$` is not a safe escape for a text that has a backslash in front of a `$`
  (`DoublingRoundTrip`); writing `\$` always is (`EscapeRoundTrip`).
- A DPoP proof is accepted twice exactly when a win in between dropped its entry (`ReplayExactly`). Within
  the cap and on a clock that never goes back that takes two equal readings at the last instant of its
  window (`ReplayExactlyAtTie`); past the cap it takes 10000 other wins (`SourceCapIsPassed`).
- A signal stops a recycle from applying new settings unless it lands right between the mid-drain check
  and the apply (`AppliedInSpiteOfSignal`).
- The recovery of a failed recycle can lift the start refusal of the next recycle while that one is
  draining (`RecoveryLiftsRefusal`); a clear by a boot or a recovery beside a draining recycle is the only
  thing that can (`StartsRefusedThroughReaps`, `RefusedExactly`).
- After 1024 failed deliveries in a row to one target, computing its delay raises, and the targets
  after it are not served (`StarvationIsReached`, `PromptSweepStopsExactly`).
- Two refreshes of one token that both pass the blocklist check before either writes leave two live
  tokens of one session (`OverlapAddsOne`); `LiveCountExactly` says when there is more than one.
- The ancestor walk ends exactly on paths that are empty or start with `/` (`WalkEndsIffRooted`).

## Model

| member | source | states |
|---|---|---|
| EditDistance.PasswordEditDistance | src/klangk/klangk/auth.py:174-195 | the two-row loop returns the least number of single insertions, deletions and substitutions, over all paths of such edits |
| EditDistance.NextRow | src/klangk/klangk/auth.py:186-194 | the inner loop turns one row of prefix distances into the next |
| EditDistance.LevIsEditDistance | src/klangk/klangk/auth.py:174-195 | the recurrence is attained by a path of single edits and no path is shorter |
| EditDistance.EditDistanceIsMetric | src/klangk/klangk/auth.py:174-195 | zero exactly on equal strings, symmetric, triangle inequality |
| EditDistance.ValidatePasswordChangedEnough | src/klangk/klangk/auth.py:825-848 | rejects exactly when fewer than the minimum number of edits suffice; a minimum of zero or less never rejects |
| EnvTemplate.CloseIsFirstDrop | src/klangk/klangk/envexp.py:177-190 | the closing brace is the first point where the balance of `${` and `}` has dropped by the open depth; none if it never drops |
| EnvTemplate.SplitOperator | src/klangk/klangk/envexp.py:151-174 | the name is the longest one at the start, a plain reference is all name, and an operator word is a strictly shorter suffix |
| EnvScanner.FindClosingBrace | src/klangk/klangk/envexp.py:177-190 | the token loop finds the closing brace of the specification |
| EnvScanner.RejectDeepNesting | src/klangk/klangk/envexp.py:261-275 | accepts exactly when no prefix has more than 16 more `${` than `}` |
| EnvScanner.DefaultWord | src/klangk/klangk/envexp.py:107-111 | value, or the word's evaluation when the set-test fails |
| EnvScanner.AltWord | src/klangk/klangk/envexp.py:114-118 | the word's evaluation when the set-test passes, else empty |
| EnvScanner.RequiredWord | src/klangk/klangk/envexp.py:121-128 | value, or an error carrying the evaluated word or the standard message |
| EnvScanner.Apply | src/klangk/klangk/envexp.py:138-148 | dispatch to the operator's meaning |
| EnvScanner.ExpandBraced | src/klangk/klangk/envexp.py:193-207 | one braced reference contributes what its template node evaluates to, nesting exactly the words that evaluation expands |
| EnvScanner.ScanReference | src/klangk/klangk/envexp.py:210-227 | one `$` contributes what its template node evaluates to, nesting exactly the words that evaluation expands |
| EnvScanner.Expand | src/klangk/klangk/envexp.py:240-258 | the scanner equals parse-then-evaluate for every value and environment, and its word recursion is exactly as deep as that evaluation |
| EnvScanner.ExpandEnvValue | src/klangk/klangk/envexp.py:230-237 | the gate, then the value's meaning, with its exact recursion depth |
| EnvScanner.ValidateEnvValue | src/klangk/klangk/envexp.py:292-317 | accepts exactly when the value has a meaning where every name is set |
| EnvScanner.ExpandEnvMap | src/klangk/klangk/envexp.py:329-345 | each value expands over the base overlaid by the entries before it and only those; the first failure ends it |
| EnvScanner.ResolvesOnce | src/klangk/klangk/envexp.py:329-345 | that outcome is unique: two readings of one map agree on every value and on the error |
| EnvScanner.OverlayContents | src/klangk/klangk/envexp.py:329-345 | with distinct keys the result holds each entry's own expansion and nothing else |
| EnvNesting.NestingBound | src/klangk/klangk/envexp.py:177-190 | an accepted value nests at most 16 plus the largest surplus of `}` over `${` in any prefix, in any environment |
| EnvNesting.ExpandWithinBound | src/klangk/klangk/envexp.py:230-275 | the recursion actually performed stays within that bound, so within 16 when no prefix has a surplus |
| EnvNesting.NestingBoundIsTight | src/klangk/klangk/envexp.py:261-275 | for every surplus there is an accepted value on which the scanner really nests 16 plus that many word expansions, wherever `A` is unset |
| EnvNesting.ValidationIgnoresWord | src/klangk/klangk/envexp.py:292-317 | validation accepts a default reference whatever its balanced word; with the name unset the word decides |
| EnvNesting.ValidationMissesDefaultWords | src/klangk/klangk/envexp.py:292-317 | a validated value that is a bad substitution where the name is unset |
| EnvLaws.EvalRendersPieces | src/klangk/klangk/envexp.py:107-148 | an expansion is template texts and variable values side by side |
| EnvLaws.ValuesAreCopiedVerbatim | src/klangk/klangk/envexp.py:230-258 | the pieces of a value, fixed by which of the names it mentions are set and which are empty, decide whether it expands and render it in every such environment: contents never steer an expansion |
| EnvLaws.ValidationIsExact | src/klangk/klangk/envexp.py:292-317 | where every name a value mentions is set and not empty, it expands iff validation accepts it |
| EnvLaws.TrialsSuffice | src/klangk/klangk/envexp.py:292-317 | the test that validation stands in for: a value expands in every environment iff it does with the names it mentions unset, empty or `x` in each of the finitely many combinations |
| EnvLaws.EscapeRoundTrip | src/klangk/klangk/envexp.py:240-258 | a text with each `$` written `\$` expands to the text, in every environment |
| EnvLaws.DoublingRoundTrip | src/klangk/klangk/envexp.py:210-227 | a text with each `$` doubled expands to the text iff it has no backslash before a `$` |
| EnvSyntax.OperatorsMean | src/klangk/klangk/envexp.py:96-174 | what each of `:-`, `-`, `:+`, `+`, `:?` and `?` written out as a string expands to, for every name, every balanced word the gate accepts and every environment: by set, empty or unset and the word's own expansion |
| EnvSyntax.PlainBraces | src/klangk/klangk/envexp.py:151-207 | `${NAME}` is the variable or empty, and braces that do not start with a name are a bad substitution |
| EnvSyntax.BadOperatorFails | src/klangk/klangk/envexp.py:151-174 | a name followed by anything but an operator is a bad substitution |
| EnvSyntax.DollarName | src/klangk/klangk/envexp.py:210-227 | `$NAME` anywhere is the variable, up to where the name ends |
| EnvSyntax.BareCharacter | src/klangk/klangk/envexp.py:210-258 | a dollar that starts no reference and any character that escapes none is itself |
| EnvSyntax.UnclosedFails | src/klangk/klangk/envexp.py:193-207 | a reference whose brace never closes fails with the whole value |
| EnvSyntax.EarlierEntriesAreSeen | src/klangk/klangk/envexp.py:329-345 | an entry that refers to a key takes the last earlier entry's value, or else the base's, never a later one's |
| Der.MinimalDigits | src/klangk/klangk/dpop.py:113-118 | the chosen byte count is exactly enough: the digits denote the number and the first is zero only for zero |
| Der.DerIntReadsBack | src/klangk/klangk/dpop.py:113-118 | a strict reader takes back exactly the integer written, whatever follows |
| Der.RawToDerDecodes | src/klangk/klangk/dpop.py:121-126 | every 64-byte signature becomes a strict DER sequence of at most 72 bytes that reads back as its two halves |
| Der.RawToDerInjective | src/klangk/klangk/dpop.py:121-126 | distinct signatures have distinct encodings |
| ProofReplay.PrefixIsWholeSegment | src/klangk/klangk/dpop.py:206-235 | one leading whole segment is removed, however the base path is padded, and nothing else |
| ProofReplay.NoBaseNoStrip | src/klangk/klangk/dpop.py:206-235 | without a base path nothing is removed |
| ProofReplay.FirstObjectionIsGiven | src/klangk/klangk/dpop.py:239-365 | the reason given is the first of the ten objections in the source's order, and a proof without any wins |
| ProofReplay.ReplayMap.Purge | src/klangk/klangk/dpop.py:295-308 | the map afterwards is its unexpired entries, trimmed to the newest up to the cap |
| ProofReplay.ReplayMap.DropExpired | src/klangk/klangk/dpop.py:303-305 | the first loop keeps exactly the unexpired entries in order |
| ProofReplay.ReplayMap.VerifyProof | src/klangk/klangk/dpop.py:333-365 | a proof wins iff it is authentic, signed by the bound key, names this request and token, is dated within the window and its id is not remembered; only a win changes the map, which then ends with that proof and is within the cap |
| ProofReplay.ReplayMap.RecordIfAuthentic | src/klangk/klangk/dpop.py:311-330 | an authentic proof is recorded until the last moment it could pass and the map purged; otherwise nothing changes |
| ProofReplay.PurgedHas | src/klangk/klangk/dpop.py:295-308 | a purge keeps an entry iff it has not expired and fewer unexpired entries than the cap are newer |
| ProofReplay.MapStaysWithinCap | src/klangk/klangk/dpop.py:295-330 | over any run the map has distinct ids, never exceeds the cap, and a winning proof is its newest entry |
| ProofReplay.EntryStays | src/klangk/klangk/dpop.py:295-330 | over any run an entry is dropped only by a later winning proof, after its expiry or by crowding it out of the cap |
| ProofReplay.RememberedExactly | src/klangk/klangk/dpop.py:261-330 | an id that won is remembered iff no win since then dropped its entry |
| ProofReplay.ReplayExactly | src/klangk/klangk/dpop.py:261-365 | for every run, cap and clock: an id that won before wins again iff it is fresh and some win in between dropped its entry |
| ProofReplay.ReplayExactlyWithinCap | src/klangk/klangk/dpop.py:261-330 | where unexpired entries fit: iff it is fresh and some win in between fell at or after its expiry |
| ProofReplay.ReplayExactlyAtTie | src/klangk/klangk/dpop.py:261-330 | on a clock that never goes back one and the same proof wins again iff it first won not after its iat, is shown at the last instant of its window, and another proof won in between at that reading |
| ProofReplay.ReplayOnlyAtTie | src/klangk/klangk/dpop.py:261-330 | any two wins of one proof in such a run are a tie, whatever wins lie between them |
| ProofReplay.NoReplay | src/klangk/klangk/dpop.py:261-330 | on a strictly increasing clock, within the cap, no (jti, iat) is accepted twice, future-dated ones included |
| ProofReplay.ReplayAtEqualClock | src/klangk/klangk/dpop.py:295-308 | such a tie exists for every cap: three verifications at two readings accept one proof twice |
| ProofReplay.ReplayPastCap | src/klangk/klangk/dpop.py:295-308 | for every cap: after that many other ids have won inside its window a proof wins again; the entries fit up to the last of those ids |
| ProofReplay.SourceCapIsPassed | src/klangk/klangk/dpop.py:295-330 | such a run exists for the cap of 10000 that the source uses |
| Lifecycle.StepKeepsInv | src/klangk/klangk/lifecycle.py:738-811 | every step of every interleaving keeps the lock, the drain flag and the shutdown consistent |
| Lifecycle.DrainingIsOwned | src/klangk/klangk/lifecycle.py:785-811 | starts are refused only under a recycle that holds the lock and is in its drain, or in a shutdown |
| Lifecycle.RecyclesAreSerialized | src/klangk/klangk/lifecycle.py:785-787 | at most one recycle is past the lock |
| Lifecycle.ShutdownKeepsRefusing | src/klangk/klangk/lifecycle.py:998-1042 | once a shutdown has set the drain flag nothing clears it and nothing changes the settings |
| Lifecycle.SettingsChangeOnlyByReload | src/klangk/klangk/lifecycle.py:649-736 | settings change only by a recycle's own step, to what that same recycle's reload produced, after its mid-drain check saw no shutdown |
| Lifecycle.AppliedInSpiteOfSignal | src/klangk/klangk/lifecycle.py:700-736 | settings change under a shutdown iff its signal landed between that recycle's mid-drain check and its apply, where nothing else can happen |
| Lifecycle.ApplyAfterDrain | src/klangk/klangk/lifecycle.py:785-805 | before its apply a recycle has got the lock, validated, drained and looked for a shutdown, in this order |
| Lifecycle.AutoStartAfterReaps | src/klangk/klangk/lifecycle.py:589-625 | whoever gets to the auto-start has been through the reaps and the check of the flag |
| Lifecycle.OutcomeIsHonest | src/klangk/klangk/lifecycle.py:738-811 | what a recycle reports is what happened at the one step where it came to its end: a cancelled wait, a shutdown or nothing to apply, a failed or cancelled await, a failed apply, or the end of startup |
| Lifecycle.SuccessMeansStartup | src/klangk/klangk/lifecycle.py:725-811 | a recycle that reports success went from its apply through reaps, check and auto-start in this order, or ended without an apply because it saw a shutdown or got no reload |
| Lifecycle.AppliedAndSucceeded | src/klangk/klangk/lifecycle.py:725-736 | so one that applied and reports success has run startup in between |
| Lifecycle.StartupMeansReaps | src/klangk/klangk/lifecycle.py:1233-1275 | a boot or recovery that reports success has run startup to its end, unless the recovery saw a shutdown or asked the process to exit |
| Lifecycle.RecoveryNeverFails | src/klangk/klangk/lifecycle.py:1233-1275 | a recovery is never recovered from in turn |
| Lifecycle.LateSignalDoesNotStopApply | src/klangk/klangk/lifecycle.py:700-736 | from the node's start such a run exists |
| Lifecycle.StartsRefusedThroughReaps | src/klangk/klangk/lifecycle.py:589-625 | along any run every recycle refuses starts from its drain to the end of its reaps iff no boot or recovery clears the flag beside a draining one |
| Lifecycle.StepHolderRefuses | src/klangk/klangk/lifecycle.py:589-625 | one step takes the refusal from a draining recycle iff it is such a clear |
| Lifecycle.RefusedExactly | src/klangk/klangk/lifecycle.py:785-811 | at any point of one recycle's drain starts are refused iff nothing lifted the refusal since the drain began, or a shutdown set it again |
| Lifecycle.RecoveryLiftsRefusal | src/klangk/klangk/lifecycle.py:1233-1275 | from the node's start a recovery can lift the refusal of another recycle that is draining |
| Lifecycle.Runtime.Advance | src/klangk/klangk/lifecycle.py:589-811 | which step of recycle_runtime, startup or the recovery writes the lock, the drain flag, the settings and the shutdown flags, and that nothing else does; together the state machine's step |
| Lifecycle.Runtime.RunTask | src/klangk/klangk/lifecycle.py:738-811 | the step is the state machine's and keeps the invariant |
| Lifecycle.Runtime.RequestRecycle | src/klangk/klangk/lifecycle.py:1182-1206 | a waiting recycle task is added unless a shutdown is in progress; no flag changes |
| Lifecycle.Runtime.OnRecycleTaskDone | src/klangk/klangk/lifecycle.py:1208-1231 | a failed recycle or recovery is replaced by a recovery, any other task just goes; no flag changes |
| Lifecycle.Runtime.OnTermSignal | src/klangk/klangk/main.py:851-886 | the first signal starts the shutdown, later ones do not |
| Lifecycle.Runtime.GracefulShutdown | src/klangk/klangk/lifecycle.py:1034-1077 | the hook sets the drain flag first, then hands off |
| AuditForward.AtLeastOnceInOrder | src/klangk/klangk/audit_forward.py:371-406 | over any run, what a target received in order of first arrival is a prefix of the table, and includes every row up to its watermark |
| AuditForward.WatermarkOnlyGrows | src/klangk/klangk/audit_forward.py:371-389 | a watermark never moves back and nothing received is lost |
| AuditForward.TargetsAreIndependent | src/klangk/klangk/audit_forward.py:342-357 | a target ends up as if it were the only one: same deliveries, watermarks, failure count and cooldown |
| AuditForward.FailuresAreConsecutive | src/klangk/klangk/audit_forward.py:457-466 | the counter is the number of failures since the last accepted batch or restart |
| AuditForward.BackoffAfterFailure | src/klangk/klangk/audit_forward.py:447-466 | the k-th failure in a row, k at most 1024, cools the target for min(300, 5 * 2^(k-1)) seconds |
| AuditForward.BatchIsSlice | src/klangk/klangk/model/audit_forward.py:127-140 | the rows past a cursor, limited, are the next stretch of the table |
| AuditSweep.Forwarder.ForwardTarget | src/klangk/klangk/audit_forward.py:371-389 | delivers the next batch, then advances the cursor and forgets failures; otherwise leaves the cursor |
| AuditSweep.Forwarder.RecordFailure | src/klangk/klangk/audit_forward.py:457-466 | counts the failure and sets the cooldown, or raises past the limit |
| AuditSweep.Forwarder.ForwardSource | src/klangk/klangk/audit_forward.py:342-357 | every target out of cooldown is attempted in order until something ends the sweep |
| AuditSweep.Forwarder.RunSweep | src/klangk/klangk/audit_forward.py:297-340 | every source in order over the targets active at the start |
| AuditSweep.SweepIsRun | src/klangk/klangk/audit_forward.py:297-340 | a sweep is a stretch of a run, so the run theorems hold after it |
| AuditSweep.ActiveInOrder | src/klangk/klangk/audit_forward.py:316-340 | the active targets keep their configured order |
| AuditSweep.AllPairsInOrder | src/klangk/klangk/audit_forward.py:332-357 | the sources are taken one after another, each over all active targets in order |
| AuditSweep.SweepsAreIndependent | src/klangk/klangk/audit_forward.py:297-357 | two completed sweeps that treat a target alike leave it alike, whatever they do to the others |
| AuditSweep.SweepStopsExactly | src/klangk/klangk/audit_forward.py:297-357 | a sweep stops iff the attempts on some active target, taken alone, would stop it |
| AuditSweep.PromptSweepStopsExactly | src/klangk/klangk/audit_forward.py:316-357 | with later checks inside the cooldown just set, an uninterrupted sweep stops iff some active target has 1024 failures and its first outcome is another |
| AuditSweep.SweepReachesEveryTarget | src/klangk/klangk/audit_forward.py:332-357 | whatever the timing, uninterrupted sweeps complete while no active target has more than 1021 failures in a row |
| AuditSweep.MoreIsUnsafe | src/klangk/klangk/audit_forward.py:342-357 | 1021 is the largest safe count: with any more, slow failing reads stop an uninterrupted sweep |
| AuditSweep.OverflowStarvesOthers | src/klangk/klangk/audit_forward.py:447-466 | past 1024 failures the sweep ends at that target, the others get nothing, and the target's count and old cooldown leave the next sweep no better |
| AuditSweep.StarvationIsReached | src/klangk/klangk/audit_forward.py:447-466 | a run of 1024 failing reads gets there, and from then on every sweep in which that read fails stops and leaves the other targets unserved |
| AuditSweep.SweepDelivers | src/klangk/klangk/audit_forward.py:332-389 | a completed sweep moves a served target by exactly one batch per source, whatever it does to the others |
| AuditSweep.BacklogDrains | src/klangk/klangk/audit_forward.py:297-389 | over completed sweeps in which other targets may fail, n pending rows of a served pair shrink by 500 each and are gone after ceil(n / 500), not before |
| SdEscape.PassesAreOne | src/klangk/klangk/audit_forward.py:198-205 | the three replacements equal one character-by-character escape |
| SdEscape.EscapeReadsBack | src/klangk/klangk/audit_forward.py:198-205 | no bare quote, bracket or backslash remains, and unescaping gives back the input |
| Sidecar.Connections.DoRegister | src/klangk/klangk/sidecar_connections.py:43-54 | the workspace points at the new socket |
| Sidecar.Connections.DoDeregister | src/klangk/klangk/sidecar_connections.py:81-101 | a socket that does not own the registration changes nothing; otherwise the registration goes and its acks fail |
| Sidecar.Connections.FailAcks | src/klangk/klangk/sidecar_connections.py:64-79 | each listed ack is popped and resolved False unless it is done |
| Sidecar.Connections.DoSendDrop | src/klangk/klangk/sidecar_connections.py:107-151 | a pending ack exists afterwards only if there is a socket and the enqueue succeeded |
| Sidecar.Connections.ResolveAck | src/klangk/klangk/sidecar_connections.py:153-160 | resolves its own ack to the verdict it carries and is a no-op on unknown ones |
| Sidecar.Connections.DoStop | src/klangk/klangk/sidecar_connections.py:162-168 | every pending ack fails and both tables are empty |
| Sidecar.RegistrationStays | src/klangk/klangk/sidecar_connections.py:81-95 | a registration stays until replaced, dropped by its own socket, or a stop |
| Sidecar.CompletesOnce | src/klangk/klangk/sidecar_connections.py:64-68 | what a future completed with is final |
| Sidecar.TrueOnlyByOwnAck | src/klangk/klangk/sidecar_connections.py:153-160 | a future is True only through a positive ack with its id, while pending |
| Sidecar.DeregisterFailsAcks | src/klangk/klangk/sidecar_connections.py:70-101 | from the owner's deregister or a stop until the workspace registers again no ack of it is pending, whatever is sent, and everyone who waited has an answer |
| Sidecar.UnregisteredHasNoAcks | src/klangk/klangk/sidecar_connections.py:107-136 | in every run an ack is pending only for a registered workspace |
| Sidecar.SendWaits | src/klangk/klangk/sidecar_connections.py:107-151 | a request that reaches the queue of a registered sidecar is pending and waits; any other leaves no ack |
| Sidecar.WaitsUntilAnswered | src/klangk/klangk/sidecar_connections.py:64-168 | a caller waits, its ack pending, until its own ack or timeout, or the loss of its workspace |
| Sidecar.FirstAnswerDecides | src/klangk/klangk/sidecar_connections.py:64-168 | the first of these decides what the caller is told, for good: the ack's verdict, a cancellation, or False |
| Sidecar.NoLeak | src/klangk/klangk/sidecar_connections.py:123-136 | an entry whose callback has run is gone |
| Acl.ResourceAncestors | src/klangk/klangk/acl.py:42-56 | the loop lists the resource, its ancestors and the root |
| Acl.AncestorsClimb | src/klangk/klangk/acl.py:42-56 | position d is the path climbed d times, and only the last is the root |
| Acl.AncestorsAreCuts | src/klangk/klangk/acl.py:42-56 | the walk visits the resource, every part of it in front of a slash, and the root, and nothing else, longer ones first |
| Acl.WalkEndsIffRooted | src/klangk/klangk/acl.py:42-56 | the walk reaches the root iff the path is empty or starts with a slash |
| Acl.CheckPermissionInMemory | src/klangk/klangk/acl.py:68-91 | the nested loops return the first decision on the walk, else deny |
| Acl.CheckFollowsDecider | src/klangk/klangk/acl.py:30-91 | the decision is that of the entry least in (distance, position) among those on the walk for one of the caller's principals and for this permission or all; default deny |
| Acl.DeciderIsUnique | src/klangk/klangk/model/schema.py:341-348 | unique positions make that entry unique |
| Acl.GetAclEntriesMap | src/klangk/klangk/model/acl.py:291-319 | each asked resource gets exactly its entries, by position |
| Acl.CheckPermission | src/klangk/klangk/acl.py:247-266 | grants iff the deciding entry allows |
| Acl.GrantedPermissions | src/klangk/klangk/acl.py:102-110 | the granted ones of the asked permissions, in order |
| Acl.UnionOfAncestors | src/klangk/klangk/acl.py:268-292 | the preload asks for every ancestor of every resource |
| Acl.PermissionsForResources | src/klangk/klangk/acl.py:268-292 | over one preload each resource gets what its own check would grant; resources with nothing granted are absent |
| Acl.GrantedAmongMembers | src/klangk/klangk/acl.py:102-110 | a permission is in the answer iff it was asked for and is granted |
| Acl.AppliesIff | src/klangk/klangk/acl.py:30-66 | an entry applies iff its principal is among the caller's and its permission is the asked one or `*` |
| Acl.GrantedAmongInOrder | src/klangk/klangk/acl.py:102-110 | granted permissions keep the order they were asked for in |
| Sessions.Registry.BlocklistToken | src/klangk/klangk/model/model.py:52-60 | the jti is on the blocklist, with the replacement where it is new; no existing entry is overwritten |
| Sessions.Registry.RevokeSessions | src/klangk/klangk/auth.py:1351-1388 | every victim blocklisted, then the rows deleted |
| Sessions.Registry.EnforceSessionLimit | src/klangk/klangk/auth.py:1404-1434 | expired rows purged, oldest rows past the cap revoked |
| Sessions.Registry.IssueToken | src/klangk/klangk/auth.py:1232-1256 | the row is written, then the cap enforced |
| Sessions.Registry.SwapToken | src/klangk/klangk/auth.py:2002-2029 | the old jti is blocklisted with its replacement unless it was already, and the row re-keyed or inserted |
| Sessions.Registry.RefreshedOrRevoked | src/klangk/klangk/auth.py:1968-1986 | the cached replacement, unless it is asked for from another workstation: then refused, and the replacement ended |
| Sessions.Registry.RefreshToken | src/klangk/klangk/auth.py:2514-2601 | mints exactly for a live, unexpired token from its own workstation, within the deadline or bound and proven, by an active user who is not idle; from elsewhere or idle the session is refused and ended, a replacement asked for from elsewhere likewise; any other refusal and a cached answer write nothing |
| Sessions.Registry.BindToken | src/klangk/klangk/auth.py:2422-2492 | mints exactly for a live, unexpired, unbound token of an active user with a key; the new token keeps expiry and deadline; a replacement asked for from elsewhere is ended, any other refusal and a cached answer write nothing |
| Sessions.Registry.RevokeSession | src/klangk/klangk/auth.py:2089-2101 | the jti is blocklisted and no row has it; every other row stays |
| Sessions.Registry.RevokeAllUserSessions | src/klangk/klangk/auth.py:1323-1349 | no row of the user is left, every jti of one is blocklisted, and the rows of others stay as they are, in order |
| Sessions.RekeyedRows | src/klangk/klangk/model/sessions.py:190-231 | a swap re-keys the session's row in its place and with its home, or adds one of unknown home |
| Sessions.ReplayedExactly | src/klangk/klangk/auth.py:481-498 | another workstation: never with the binding off or by an unknown value; by known addresses that differ, and in strict mode by known agents that differ |
| SessionLaws.NoLiveVictimWithoutRow | src/klangk/klangk/auth.py:1373-1388 | stopped after any single step, a revocation leaves no unblocklisted victim without its row |
| SessionLaws.CapKeepsNewest | src/klangk/klangk/auth.py:1404-1434 | the user keeps exactly the newest unexpired rows up to the cap, whoever is kept everybody newer is kept, the evicted are blocklisted, other users keep theirs |
| SessionLaws.IssueKeepsNewest | src/klangk/klangk/auth.py:1232-1256 | so after every issue in every run, counting the new row |
| SessionLaws.RotationKeepsNewest | src/klangk/klangk/auth.py:2461-2472 | so after every minting refresh or bind in every run |
| SessionLaws.StepKeepsInv | src/klangk/klangk/auth.py:1232-2601 | every operation keeps token families, rows and blocklist consistent |
| SessionLaws.ChainKeepsBinding | src/klangk/klangk/auth.py:2395-2493 | along any chain of refreshes and binds the deadline never changes, the key once set is that of every bound token and of the live one, at most one token is live |
| SessionLaws.KeyIsForGood | src/klangk/klangk/auth.py:2395-2601 | every token minted into a chain after a bound one carries its key |
| SessionLaws.RegistryIsComplete | src/klangk/klangk/auth.py:1362-1372 | no live unexpired token minted by the registry is without its row |
| SessionLaws.RotationKeepsCount | src/klangk/klangk/model/sessions.py:190-231 | rotating a token that has a row never grows the owner's row count |
| SessionLaws.ReplacementIsFinal | src/klangk/klangk/model/model.py:52-80 | a cached replacement never changes |
| SessionLaws.RefreshIsIdempotent | src/klangk/klangk/auth.py:2514-2557 | a later refresh of a swapped token returns its one replacement and changes nothing, or is refused, with the exact condition |
| Overlap.SwapThenMove | src/klangk/klangk/auth.py:2002-2029 | with nothing in between, the two awaited writes of a rotation are the swap of the sequential registry |
| Overlap.LiveCountExactly | src/klangk/klangk/auth.py:2514-2601 | in every interleaving of logins, rotations and revocations a chain has one live token, plus one per overtaken write, less one per revoked one; so at most one iff no more writes were overtaken than tokens revoked |
| Overlap.OvertakenExactly | src/klangk/klangk/auth.py:2422-2472 | every rotation under way passed a check that found its token not blocklisted, and its write is overtaken iff since then another rotation of that token wrote or the token was revoked |
| Overlap.OverlapAddsOne | src/klangk/klangk/auth.py:2514-2601 | after any run two rotations of one live token that both check before either writes leave one live token more |
| Overlap.LiveHasRow | src/klangk/klangk/auth.py:2002-2029 | in every interleaving each live token has its row, except between the two writes of its own rotation or where that rotation ended between them |
| IdleTimeout.SessionStamps.StampThrottleDue | src/klangk/klangk/auth.py:1079-1093 | due iff the last stamp is at least an interval old; eviction makes room before the write |
| IdleTimeout.SessionStamps.RecordActivity | src/klangk/klangk/auth.py:1095-1124 | the stored last-seen is written when due |
| IdleTimeout.SessionStamps.RejectIdleSession | src/klangk/klangk/auth.py:1024-1042 | ends the session iff it is idle longer than the general window, or for an admin than the privileged one where set; only its rows go |
| IdleTimeout.StampLagBounded | src/klangk/klangk/auth.py:1054-1124 | stored last-seen is at most the true last use and less than an interval, and a minute, behind, whatever is evicted |
| IdleTimeout.RefreshSeamIsFair | src/klangk/klangk/auth.py:2069-2137 | in the settings' own terms: a regular owner's session used within three quarters of the general window is never ended and one idle longer than it always is; for an admin the same with the privileged window where set |
| IdleTimeout.OwnersHaveTheirWindow | src/klangk/klangk/auth.py:1024-1042 | everybody has the general window, an admin the lesser of it and the privileged one where that is set, nobody any with the general one off |
| IdleTimeout.IntervalIsLeast | src/klangk/klangk/auth.py:1058-1077 | the throttle interval is the least of a minute and a quarter of every window an owner can have |
| IdleTimeout.ThrottleExactly | src/klangk/klangk/auth.py:1079-1093 | a write is due iff the key has no stamp younger than the interval; only a full table loses a stamp, the oldest |
| IdleTimeout.ActivityIsUse | src/klangk/klangk/auth.py:1095-1124 | activity under a session's stable id or current jti counts as use of that session and no other |
| Lockout.LoginAttempts.CheckLoginLockout | src/klangk/klangk/auth.py:940-981 | locked iff the stored lockout is in the future |
| Lockout.LoginAttempts.RecordLoginFailure | src/klangk/klangk/auth.py:983-1013 | count up or restart, and lock from the threshold on |
| Lockout.LoginAttempts.Login | src/klangk/klangk/auth.py:1900-1926 | one login's accounting on its key, other keys untouched; a locked, disabled or otherwise refused login changes nothing, a right one clears the key |
| Lockout.FailuresAreSpaced | src/klangk/klangk/auth.py:909-1013 | from the threshold on, failed checks are at least the duration apart |
| Lockout.FailedChecksBounded | src/klangk/klangk/auth.py:909-1020 | at most F + floor(W / D) failed checks between two restarts of the counter |
| Lockout.BoundIsAttained | src/klangk/klangk/auth.py:909-1020 | for every configuration some run gets exactly that many |

## Left out

- JWT, PBKDF2, ECDSA, SHA-256 and base64: library calls. Tokens are records of claims, a signature check is a boolean, digests and thumbprints are strings.
- HTTP, WebSocket, SMTP, podman, SQL, syslog sockets and Caddy: only success, failure and interruption are kept.
- Concurrent session requests: `SessionLaws` takes refresh, bind, issue and revoke as one step each. `Overlap` splits a rotation at its blocklist check and its two writes and a revocation at its own two, and leaves out the other awaits of a request, token expiry and the cap's choice of victims.
- Sockets kicked and retargeted by a revocation or a swap, audit rows, log lines and user messages.
- Workstation binding: the address comparison with its IPv6 network rule is a parameter; the bind endpoint's own authentication dependency is not modelled.
- Bind: the replacement keeps the old token's expiry exactly; the two clock readings and the rounding to whole seconds in between are not modelled.
- Idle timeout: one clock stands for both the monotonic clock of the throttle and the wall clock of the stamps; a stamp and its database write are one step.
- Lockout: the counter of one key under sequential attempts; an unparseable stored time is not modelled.
- Nesting: the recursion of the scanner is bounded, not the length of its output.
- `expand_env_map` and `_lookup`: the warning logged for an unset name, and the conversion of non-string values.
- Retention pruning of audit tables: rows are never deleted while they wait, as the at-least-once promise assumes.
- Acl.ResourceAncestors, Acl.CheckPermissionInMemory, Acl.CheckPermission, Acl.GrantedPermissions, Acl.PermissionsForResources: require paths on which the source's loop ends (`WalkEndsIffRooted` says which); on others the source does not return.
- AuditForward.TargetsAreIndependent: stated for targets with different watermark keys; the 16-digit digest of the source can collide in principle.
- The forwarder's status fields (`healthy`, `last_error`, `pending`), syslog line formatting and target parsing: reporting and rendering.
- `is_locked_out` messages, password history, age and class rules, OIDC, invitations, step-up: no deep invariant.
- `lifecycle.py` seeding and default-admin checks, reconfiguration of subsystems, and the forced container backstop.
