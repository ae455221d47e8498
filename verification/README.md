# Logistics back office: a verified model

The repository is the back office of a forwarding company: a FastAPI service on PostgreSQL and
Redis with a Nuxt client. This project models the parts of it that carry invariants (the
database guards of the ledger, the authorization compiler and its migrations, money and
numbering, payload validation, and the shared state of cache, rate limiter and API client) and
proves what each of them keeps over all inputs, all runs and all interleavings.

`dafny verify dfyconfig.toml` checks everything.

| module | models |
|---|---|
| `Allocations` | payment allocations under concurrent transactions with row locks |
| `Ledger` | journal guards, deferred posting check, audit table, trial balance and data reset, one session after the other |
| `LedgerSessions` | the same guards under concurrent sessions |
| `Sequences` | document numbers under concurrent transactions |
| `RoleCompiler` | the page/capability compiler |
| `RoleIdempotence`, `RoleCatalog` | when compiling or rebuilding a second time changes anything, in general and on an excerpt of the shipped catalog |
| `SingleRole`, `CasbinCopy`, `RoleFlattening` | the four migrations that moved roles to Casbin |
| `ConfigVersions` | the life of configuration versions |
| `Fx` | exchange rates and half-up rounding |
| `Validation` | schema validation of payloads and of repeated rows |
| `ValidationKinds` | what each kind of field accepts, what it makes of it, and each refusal |
| `RateLimit` | the Redis window with its in-process fallback |
| `Cache` | versioned cache invalidation |
| `ApiRequests` | cancellation, counting and retrying of client requests |
| `CommentWrap` | wrapping and quoting of generated schema comments |
| `Naming` | camelCase keys and snake_case columns |
| `Sums`, `Decimals`, `Text`, `Collections`, `Wrappers` | shared helpers |

A protocol is a datatype of states, a datatype of steps and a function `Next`; a step that has
to wait or is not enabled leaves the state alone, so a run is any sequence of steps. Where the
source updates state in place, a class holds the same state in fields, and its methods, written
statement by statement, are proved to do exactly what the steps do.

## Where the code and its documentation disagree

The model follows the code.

- `backend/app/core/permissions.py:616-618` says compiling is idempotent. It is not:
  `CompileIsNotIdempotent` gains capabilities and `CompileGainsAPage` gains a page, both on shipped
  entries. `CompileTwiceIff` and `CompileAgainAddsNoCapabilityIff` say exactly when it is.
  Rebuilding stored roles, by contrast, is idempotent as
  `backend/scripts/rebuild_role_permissions.py:13` says, on every catalog whose grants close in two
  hops and whose first pages are settled (`RebuildIsIdempotent`, `SecondRunReportsNothing`). The
  excerpt in `RoleCatalog` has both properties; the other entries that grant capabilities together
  with pages (`admin.role_manage`, `settings.manage`, `reports.view`) have the shape of those in it.
- `backend/app/core/permissions.py:659-661` says that a code compiled from a selected page is
  dropped and derived again. It is, but what it opened by itself is not: submitting
  `dashboard.export` next to `report.export` loses the report pages (`TickingAPageLosesAPage`), and
  in general capabilities too (`DroppedCodeLosesACapability`). `ResolveReachesSubmittedIff` says
  exactly when no capability is lost.
- The journal guards do not hold up under concurrent sessions, which the comments in
  `backend/alembic/versions/e6f7a8b9c0d1_reporting_views_and_integrity.py:256-281` do not mention. The line
  guard reads the journal's status without a lock, and the deferred check does not see lines
  pending elsewhere (`RaceBreaksPosting`, `GapBreaksPosting`). A posted journal can change exactly
  through line writes that were pending when its posting committed (`PostedNeverChanges`,
  `PostingOutOfReachIff`, `LateCommitChangesIff`); without such overlap everything holds in every
  interleaving, and locking the journal row for line writes would rule it out
  (`LockingIsUndisturbed`).
- `backend/alembic/versions/e6f7a8b9c0d1_reporting_views_and_integrity.py:278-281` says that a
  journal is inserted as POSTED and receives its lines afterwards. The line guard refuses those
  lines, so such a transaction never commits (`DirectPostingNeverCommits`); the path that commits
  is draft, lines, status (`BalancedDraftCommits`).
- `backend/alembic/versions/b4c5d6e7f8a9_single_role_direct_rbac.py:59-60` promises to copy every
  ancestor's grants. The walk compares codes with keys that carry the `role:` prefix and stops
  after one level, so longer chains lose rights (`ChainsAreNotPreserved`);
  `KeepsAllRightsIffOneLevel` says exactly when none are lost.
- `backend/alembic/versions/f2c3d4e5f6a7_configuration_version_draft_support.py:9-11` says that a
  published version becomes immutable again. The guard does not compare the status, so a frozen
  version can return to DRAFT and be rewritten (`ReopeningUnfreezes`); a statement keeps it
  exactly when it does not do that (`StatementKeepsFrozenIff`), and so does every run
  (`FrozenForever`).
- `backend/app/core/fx.py:65` accepts rates too small to be stored, which `normalize_rate`
  refuses (`ValidButNotStorable`), and an infinite precision setting raises an error that
  `currency_precision` does not catch (`CurrencyPrecision`).
- `frontend/app/composables/useApi.ts:40-41` says that a later request cancels an older one. The
  retry of an older call also cancels a newer one (`RetryAbortsNewerCall`), exactly when it cancels
  at all and the newer one has registered under its key (`RetryAbortsAnotherIff`).
- `backend/app/core/cache.py:57-58` says that bumping invalidates every cached value. An `INCR`
  that is lost is swallowed, and old values are served on (`LostBumpServesOldValues`); `ServedIff`
  says exactly which.

## Model

| member | source | states |
|---|---|---|
| Allocations.NeverOverAllocated | backend/alembic/versions/e6f7a8b9c0d1_reporting_views_and_integrity.py:317-350 | under every interleaving of locking, summing, writing, deleting, committing and rolling back, no document has more committed allocations than its total, as payment or as target; amounts are non-negative and no total is lowered below what is allocated |
| Allocations.StepKeepsInv | backend/alembic/versions/e6f7a8b9c0d1_reporting_views_and_integrity.py:320-349 | the invariant behind it: the sums a trigger has read bound the current rows from above as long as it holds both row locks |
| Allocations.CommitShrinksOthers | backend/alembic/versions/e6f7a8b9c0d1_reporting_views_and_integrity.py:327-339 | a commit by someone else can only lower what another transaction has summed on a document it holds locked |
| Allocations.GuardDecides | backend/alembic/versions/e6f7a8b9c0d1_reporting_views_and_integrity.py:320-349 | an undisturbed insert or update is let through if and only if both documents exist and the row fits the rest of both; the transaction then sees exactly that row changed and holds both locks |
| Allocations.OutstandingInRange | backend/alembic/versions/e6f7a8b9c0d1_reporting_views_and_integrity.py:128-152 | every outstanding amount the view lists lies between zero and the document's total |
| Allocations.OutstandingIs | backend/alembic/versions/e6f7a8b9c0d1_reporting_views_and_integrity.py:128-152 | the view lists exactly the live invoices and bills, each with its total less the amounts of the committed rows that name it as target and whose payment is live |
| Allocations.AllocatingLowersOutstanding | backend/alembic/versions/e6f7a8b9c0d1_reporting_views_and_integrity.py:128-152 | a committed allocation lowers the outstanding amount of its target by its own amount if its payment is live; other documents, and allocations of drafts, change nothing |
| Allocations.EndingPaymentRaisesOutstanding | backend/alembic/versions/e6f7a8b9c0d1_reporting_views_and_integrity.py:128-152 | reversing or cancelling a live payment raises the outstanding amount of any other document by exactly what it had paid of it |
| Allocations.UsedIs | backend/alembic/versions/e6f7a8b9c0d1_reporting_views_and_integrity.py:334-339 | the sums the guard compares are the amounts of the rows naming the document as payment, or as target |
| Allocations.ChangeKeepsCoveredIff | backend/alembic/versions/e6f7a8b9c0d1_reporting_views_and_integrity.py:317-350 | changing a document keeps all documents covered if and only if its new total is at least what is allocated of it on both sides |
| Allocations.LoweredTotalIsNotGuarded | backend/alembic/versions/e6f7a8b9c0d1_reporting_views_and_integrity.py:382-386 | a run that lowers an allocated document's total breaks the bound, so that hypothesis is needed |
| Allocations.NegativeAmountIsNotGuarded | backend/alembic/versions/e6f7a8b9c0d1_reporting_views_and_integrity.py:340-347 | a run with a negative amount breaks the bound, so that hypothesis is needed |
| Allocations.Database.GuardAllocation | backend/alembic/versions/e6f7a8b9c0d1_reporting_views_and_integrity.py:320-349 | the trigger function accepts exactly the rows that fit and has the effect of its statements in order |
| Allocations.Database.DeleteAllocation | backend/alembic/versions/e6f7a8b9c0d1_reporting_views_and_integrity.py:317-318 | deleting is not guarded; exactly that row disappears from what the transaction sees |
| Allocations.Database.CommitTransaction | backend/alembic/versions/e6f7a8b9c0d1_reporting_views_and_integrity.py:382-386 | what the transaction saw becomes the committed rows; the other transactions stay as they were |
| Ledger.PostedIsBalanced | backend/alembic/versions/e6f7a8b9c0d1_reporting_views_and_integrity.py:282-310 | over every run of one session, each committed posted journal has at least two lines with equal positive debit and credit |
| Ledger.PostedInsideOpenPeriod | backend/alembic/versions/e6f7a8b9c0d1_reporting_views_and_integrity.py:296-300 | in one session, a journal becomes posted only by a commit that finds its date inside an open period |
| Ledger.PostedIsImmutable | backend/alembic/versions/e6f7a8b9c0d1_reporting_views_and_integrity.py:241-277 | in one session, a committed posted journal and its lines never change again, `updated_at` aside |
| Ledger.PostedIsImmutableFromAnyRun | backend/alembic/versions/e6f7a8b9c0d1_reporting_views_and_integrity.py:241-277 | the same from every state one session can reach |
| Ledger.DirectPostingNeverCommits | backend/alembic/versions/e6f7a8b9c0d1_reporting_views_and_integrity.py:263-310 | whatever else its transaction does, a journal inserted as POSTED never commits |
| Ledger.BalancedDraftCommits | backend/alembic/versions/e6f7a8b9c0d1_reporting_views_and_integrity.py:366-371 | a balanced draft in an open period can be posted and committed, and nothing else changes |
| Ledger.NextKeepsInv | backend/alembic/versions/e6f7a8b9c0d1_reporting_views_and_integrity.py:360-381 | each statement of one session keeps: a newly posted journal still waits for its deferred check, and committed postings are untouched in the open transaction |
| Ledger.AuditIsAppendOnly | backend/alembic/versions/e6f7a8b9c0d1_reporting_views_and_integrity.py:311-316 | no statement changes or removes an audit row, not even with the purge hatch open or by the reset |
| Ledger.BalancedIs | backend/alembic/versions/e6f7a8b9c0d1_reporting_views_and_integrity.py:301-307 | balanced means two different lines of the journal, and equal and positive sums of the debits and credits of its lines |
| Ledger.InOpenPeriodIs | backend/alembic/versions/e6f7a8b9c0d1_reporting_views_and_integrity.py:296-300 | the period exists and is open, and the entry date lies in it, both ends included |
| Ledger.PassesIff | backend/alembic/versions/e6f7a8b9c0d1_reporting_views_and_integrity.py:286-309 | the deferred check lets through exactly purged rows, rows not posted or posted before, and first postings that balance inside an open period |
| Ledger.JournalUpdateFailsIff | backend/alembic/versions/e6f7a8b9c0d1_reporting_views_and_integrity.py:241-255 | an update fails if and only if its period is missing, or, outside a purge, it would change any column of a posted journal |
| Ledger.JournalUpdateStores | backend/alembic/versions/e6f7a8b9c0d1_reporting_views_and_integrity.py:352-371 | an accepted update stores the row asked for under the new time stamp, keeps the status it does not set, queues a check exactly when it sets it, and changes nothing else |
| Ledger.JournalDeleteIs | backend/alembic/versions/e6f7a8b9c0d1_reporting_views_and_integrity.py:243-249 | deleting fails exactly for posted journals outside a purge; otherwise the journal and its lines are gone, and nothing else |
| Ledger.LineWriteIs | backend/alembic/versions/e6f7a8b9c0d1_reporting_views_and_integrity.py:256-277 | inserting or updating a line fails exactly for a missing or posted journal, a taken id and a move, the last two guards purges aside; otherwise that line alone is stored |
| Ledger.LineDeleteIs | backend/alembic/versions/e6f7a8b9c0d1_reporting_views_and_integrity.py:256-277 | deleting a line fails exactly for a line of a posted journal outside a purge; otherwise that line alone is gone |
| Ledger.TrialBalanceNetsToZero | backend/alembic/versions/e6f7a8b9c0d1_reporting_views_and_integrity.py:65-79 | in every committed state one session can reach, total debit equals total credit over all accounts and the net balances sum to zero, resets included |
| Ledger.TrialBalanceOf | backend/alembic/versions/e6f7a8b9c0d1_reporting_views_and_integrity.py:65-79 | grouping posted lines by account gives the totals of grouping them by journal, where they balance row by row |
| Ledger.TrialBalanceRow | backend/alembic/versions/e6f7a8b9c0d1_reporting_views_and_integrity.py:65-79 | an account has a row if and only if a line of a posted journal is on it, and its debit, credit and net are the sums of exactly these lines |
| Ledger.Database.InsertJournalRow | backend/alembic/versions/e6f7a8b9c0d1_reporting_views_and_integrity.py:366-371 | the row is added and its deferred check queued |
| Ledger.Database.UpdateJournalRow | backend/alembic/versions/e6f7a8b9c0d1_reporting_views_and_integrity.py:241-255 | guard, then `updated_at`, then the deferred check when the status is set |
| Ledger.Database.DeleteJournalRow | backend/alembic/versions/e6f7a8b9c0d1_reporting_views_and_integrity.py:247-249 | a posted journal cannot be deleted |
| Ledger.Database.UpdateLineRow | backend/alembic/versions/e6f7a8b9c0d1_reporting_views_and_integrity.py:256-277 | lines of posted journals cannot change and lines cannot move |
| Ledger.Database.DeleteLineRow | backend/alembic/versions/e6f7a8b9c0d1_reporting_views_and_integrity.py:256-277 | lines of posted journals cannot be deleted |
| Ledger.Database.ValidatePost | backend/alembic/versions/e6f7a8b9c0d1_reporting_views_and_integrity.py:282-310 | passes exactly when there is nothing to check or the journal is balanced inside an open period |
| Ledger.Database.CommitTransaction | backend/alembic/versions/e6f7a8b9c0d1_reporting_views_and_integrity.py:367-371 | runs the queued checks in order; the first failure discards the transaction |
| Ledger.Database.ResetAllData | backend/app/core/bootstrap.py:373-412 | one transaction that opens the purge hatch, empties lines, journals and periods, and keeps the audit rows |
| LedgerSessions.PostedNeverChanges | backend/alembic/versions/e6f7a8b9c0d1_reporting_views_and_integrity.py:241-277 | in every interleaving, a committed posted journal that no open transaction has written a line of never changes again, `updated_at` aside |
| LedgerSessions.PostingOutOfReachIff | backend/alembic/versions/e6f7a8b9c0d1_reporting_views_and_integrity.py:263-271 | when a posting commits, the journal is out of reach from then on if and only if no other open transaction has written a line of it |
| LedgerSessions.LateCommitChangesIff | backend/alembic/versions/e6f7a8b9c0d1_reporting_views_and_integrity.py:263-271 | a commit changes a posted journal if and only if the lines pending in it differ |
| LedgerSessions.GuardKeepsOut | backend/alembic/versions/e6f7a8b9c0d1_reporting_views_and_integrity.py:256-277 | in every interleaving the line guard lets nobody start to write lines of a posted journal |
| LedgerSessions.PostedBalancesAcrossSessions | backend/alembic/versions/e6f7a8b9c0d1_reporting_views_and_integrity.py:282-310 | in every interleaving in which no commit overlaps lines and posting of one journal, each committed posted journal balances |
| LedgerSessions.TrialBalanceAcrossSessions | backend/alembic/versions/e6f7a8b9c0d1_reporting_views_and_integrity.py:65-79 | in these interleavings the trial balance nets to zero, resets included |
| LedgerSessions.PostedImmutableAcrossSessions | backend/alembic/versions/e6f7a8b9c0d1_reporting_views_and_integrity.py:241-277 | a journal posted in such an interleaving never changes again, whatever interleaving follows |
| LedgerSessions.PostedInsideSeenPeriod | backend/alembic/versions/e6f7a8b9c0d1_reporting_views_and_integrity.py:296-300 | in every interleaving a journal becomes posted only by a commit whose deferred check found its date inside an open period |
| LedgerSessions.CheckNotesOpenPeriod | backend/alembic/versions/e6f7a8b9c0d1_reporting_views_and_integrity.py:296-300 | the period a check goes by is the one committed when it runs |
| LedgerSessions.AdvanceKeepsSettled | backend/alembic/versions/e6f7a8b9c0d1_reporting_views_and_integrity.py:360-376 | the invariant behind it: posted journals balance, nobody touches them, and a posting that has been checked stays balanced |
| LedgerSessions.RaceBreaksPosting | backend/alembic/versions/e6f7a8b9c0d1_reporting_views_and_integrity.py:256-310 | from any state with a draft that can be posted, two sessions commit an unbalanced posted journal, and the trial balance is off by the late line |
| LedgerSessions.GapBreaksPosting | backend/alembic/versions/e6f7a8b9c0d1_reporting_views_and_integrity.py:282-310 | lines committed between a check and its commit also leave the posted journal unbalanced |
| LedgerSessions.LockingIsUndisturbed | backend/alembic/versions/e6f7a8b9c0d1_reporting_views_and_integrity.py:263-264 | if writing a line locked its journal row, no interleaving would overlap |
| LedgerSessions.StatementAsAlone | backend/alembic/versions/e6f7a8b9c0d1_reporting_views_and_integrity.py:241-277 | a statement that does not wait raises or writes exactly as it does in a session alone |
| Sequences.NumbersAreGapless | backend/app/core/sequences.py:24-55 | under every interleaving, rollbacks and racing creation of the row included, the committed numbers of a type and year are, in commit order, exactly 1 to `last_value` |
| Sequences.NextKeepsInv | backend/app/core/sequences.py:32-54 | each statement keeps: what a transaction has issued continues the committed numbers of the rows it has locked |
| Sequences.CommitKeepsOther | backend/app/core/sequences.py:39-51 | a commit leaves the numbers other open transactions have issued valid |
| Sequences.RenderInjective | backend/app/core/sequences.py:53-53 | one row never renders two numbers alike, past the padding width too |
| Sequences.RenderReadable | backend/app/core/sequences.py:53-53 | with digit-free prefixes the text determines prefix, year and number, whatever the paddings |
| Sequences.RenderEqualIff | backend/app/core/sequences.py:53-53 | two rows render two numbers alike if and only if prefix and year print the same and so do the padded numbers, which are equal then |
| Sequences.DigitPrefixesCollide | backend/app/core/sequences.py:46-53 | an instance: a prefix ending in a digit runs into the year of another row |
| Sequences.DefaultPrefixesAreDistinct | backend/app/core/sequences.py:10-21 | the shipped prefixes are digit-free and distinct |
| Sequences.RenderedNumbersAreUnique | backend/app/core/sequences.py:10-55 | with the shipped types and prefixes no two committed numbers are rendered alike, over all types and years |
| Sequences.RenderedNumbersDifferIff | backend/app/core/sequences.py:24-55 | over every run, whatever types and prefixes, all committed numbers are rendered differently if and only if no two rows print the same head and have issued a number their paddings print alike |
| Sequences.SharedPrefixCollides | backend/app/core/sequences.py:46-46 | any two types with the same default prefix, the first two letters of an unlisted type included, do issue the same text |
| Sequences.CallAlone | backend/app/core/sequences.py:32-55 | an undisturbed call adds one to the visible row, creating it at zero when missing |
| Sequences.FirstNumberIs | backend/app/core/sequences.py:32-53 | the first number of a type and year reads prefix, year, `-000001`; the prefix is the one given unless blank, else the shipped one, else two letters of the type |
| Sequences.NextNumberIs | backend/app/core/sequences.py:48-53 | each further number is one more than the last of its row, printed behind the prefix of the row and filled with zeros to its padding, and only that row changes |
| Sequences.Database.AllocateNumber | backend/app/core/sequences.py:24-55 | the call has the effect of its statements and returns the text of the number it issued |
| RoleCompiler.BuildReverse | backend/app/core/permissions.py:592-598 | the reverse table lists, for each code, the pages that grant it, once each, in catalog order |
| RoleCompiler.CompileRolePermissions | backend/app/core/permissions.py:601-639 | its loops compute the closure: submitted codes, two declared hops, and for each capability the first page that grants nothing new |
| RoleCompiler.CompileNeverWidens | backend/app/core/permissions.py:607-624 | the capabilities of the result are exactly those submitted, those one grant away, and those a second grant away through a declared page |
| RoleCompiler.AddedPagesGrantNothingNew | backend/app/core/permissions.py:633-639 | every page added for a capability grants only what is covered already |
| RoleCompiler.CompileExactly | backend/app/core/permissions.py:625-639 | a code is in the result if and only if it is in reach of the non-blank codes given, or is the first page in catalog order that grants some capability in reach and grants only codes in reach |
| RoleCompiler.DesiredExactly | backend/scripts/rebuild_role_permissions.py:45-55 | a rebuilt role holds exactly that from its pages and from the codes no other entry grants; the super administrator holds the wildcard alone |
| RoleCompiler.ResolveKeepsSubmitted | backend/app/core/permissions.py:656-671 | no submitted code is lost, unless the wildcard replaces them all |
| RoleCompiler.ResolveIgnoresGranted | backend/app/core/permissions.py:666-671 | resubmitting codes a selected page grants anyway changes nothing |
| RoleCompiler.ResolveExactly | backend/app/core/permissions.py:656-671 | a save with the wildcard stores it alone; any other stores exactly the codes in reach of the submitted pages and of the codes no submitted page grants, and the pages that fit |
| RoleCompiler.ResolveNeverWidens | backend/app/core/permissions.py:656-671 | its capabilities are exactly those in reach, and each of its pages is in reach or grants only codes in reach |
| RoleCompiler.ResolveReachesSubmittedIff | backend/app/core/permissions.py:656-671 | a save has exactly the capabilities in reach of all submitted codes if and only if the codes dropped as granted open no capability out of reach of the rest |
| RoleCompiler.ResolveReachesSubmitted | backend/app/core/permissions.py:656-671 | and always on a catalog in which a code that a page grants opens no capability beyond the page |
| RoleCompiler.DroppedCodeLosesACapability | backend/app/core/permissions.py:666-671 | a catalog and a selection for which ticking a page takes a capability away, so that condition is needed |
| RoleCompiler.ResolveRoleCodes | backend/app/core/permissions.py:656-671 | the function computes this from the raw codes and the reverse table |
| RoleCompiler.RebuildOnlyGrows | backend/scripts/rebuild_role_permissions.py:45-55 | rebuilding a rebuilt role never takes a code away |
| RoleCompiler.AnyRoleSettles | backend/scripts/rebuild_role_permissions.py:45-55 | from any stored set, after at most as many rebuilds as there are codes plus one, a further rebuild changes nothing |
| RoleIdempotence.CompileAgainAddsNoCapabilityIff | backend/app/core/permissions.py:614-618 | compiling twice adds no capability if and only if every capability granted by a covered code, or by a page such a code declares, is covered already |
| RoleIdempotence.NoSelectionGainsIff | backend/app/core/permissions.py:614-618 | on a catalog, no selection gains a capability by a second compile if and only if no single code does |
| RoleIdempotence.CompileTwiceIff | backend/app/core/permissions.py:612-618 | compiling twice changes nothing if and only if the covered codes grant only covered codes and added pages, and no page that comes first in catalog order is completed by an added page |
| RoleIdempotence.RebuildAgainAddsNoCapabilityIff | backend/scripts/rebuild_role_permissions.py:45-55 | a second rebuild adds no capability if and only if the capabilities of the covered pages, and of the pages these declare, are covered already |
| RoleIdempotence.NoRoleGainsIff | backend/scripts/rebuild_role_permissions.py:45-55 | on a catalog, no stored role gains a capability by a second rebuild if and only if no single selectable code does |
| RoleIdempotence.RebuildTwiceIff | backend/scripts/rebuild_role_permissions.py:45-55 | a second rebuild changes nothing if and only if the covered pages grant only covered codes and added pages, and the first pages are held |
| RoleIdempotence.SecondRunAddsNoCapability | backend/scripts/rebuild_role_permissions.py:45-55 | if page grants close in two hops, a second rebuild adds no capability |
| RoleIdempotence.SecondRunChangesNothingIff | backend/scripts/rebuild_role_permissions.py:45-55 | if page grants close in two hops, a second rebuild changes nothing if and only if no page that comes first in catalog order is completed by an added page |
| RoleIdempotence.RebuildIsIdempotent | backend/scripts/rebuild_role_permissions.py:12-13 | if also every page that grants capabilities and pages is preceded by a smaller one or always comes with its pages, every rebuild is idempotent |
| RoleIdempotence.SecondRunReportsNothingIff | backend/scripts/rebuild_role_permissions.py:58-97 | after an applied run a second one reports no changes if and only if every role but the super administrator is settled |
| RoleIdempotence.SecondRunReportsNothing | backend/scripts/rebuild_role_permissions.py:12-13 | on a catalog with both properties it always reports none |
| RoleIdempotence.CompileIsNotIdempotent | backend/app/core/permissions.py:616-618 | three shipped entries on which compiling twice opens report exports |
| RoleIdempotence.ExcerptOpensNothing | backend/app/core/permissions.py:667-671 | these entries meet that condition, so no save over them loses a capability |
| RoleIdempotence.TickingAPageLosesAPage | backend/app/core/permissions.py:659-671 | on these entries submitting `dashboard.export` with `report.export` loses a page that `report.export` alone opens |
| RoleIdempotence.RoleStore.DesiredCodes | backend/scripts/rebuild_role_permissions.py:45-55 | keeps pages and deliberate grants and compiles them; the super administrator gets the wildcard |
| RoleIdempotence.RoleStore.Rebuild | backend/scripts/rebuild_role_permissions.py:58-97 | refuses production; otherwise counts exactly the outdated roles and, only when applied, gives each role its desired codes |
| RoleCatalog.ExcerptPagesOnlyImply | backend/app/core/permissions.py:460-467 | the hypothesis on the catalog holds with the capability that grants itself |
| RoleCatalog.ExcerptIsSettled | backend/app/core/permissions.py:371-405 | the entries that grant capabilities together with pages are settled |
| RoleCatalog.ExcerptRebuildsOnce | backend/app/core/permissions.py:371-405 | so every stored role of these entries is rebuilt once and for all |
| RoleCatalog.CompileGainsAPage | backend/app/core/permissions.py:371-506 | the eight capabilities of `configuration.configure` compile to that page, and compiling again adds `configuration.update` |
| SingleRole.FirstExists | backend/alembic/versions/f1a2b3c4d5e6_single_role_rbac.py:35-43 | every user with an active row has a first one in the migration's ranking |
| SingleRole.RowNumberOneIsFirst | backend/alembic/versions/f1a2b3c4d5e6_single_role_rbac.py:35-43 | row number one means that no other active row of the user comes before |
| SingleRole.FirstIs | backend/alembic/versions/f1a2b3c4d5e6_single_role_rbac.py:35-43 | the first row is still running, permanent if any running row of the user is, and of those the one with the lowest id |
| SingleRole.ExpireLeavesFirst | backend/alembic/versions/f1a2b3c4d5e6_single_role_rbac.py:32-50 | each user is left with exactly the first active row, unchanged |
| SingleRole.ExpireLeavesOne | backend/alembic/versions/f1a2b3c4d5e6_single_role_rbac.py:51-57 | from any table the partial unique index can be built |
| SingleRole.PartlyIsOneOpen | backend/alembic/versions/a2b3c4d5e6f7_rbac_assignment_integrity.py:24-45 | whatever the order in which rows are updated, the unique index is never violated on the way |
| SingleRole.OpenAfterBoth | backend/alembic/versions/a2b3c4d5e6f7_rbac_assignment_integrity.py:24-45 | after both revisions the open rows are exactly the first rows that were still running |
| SingleRole.AtMostOneFinalRole | backend/alembic/versions/b4c5d6e7f8a9_single_role_direct_rbac.py:36-57 | the role a user ends with is unique |
| SingleRole.OneOpenOneLink | backend/alembic/versions/a1b2c3d4e5f7_casbin_authorization.py:102-110 | one open row per user becomes at most one link per user, so the later abort cannot fire |
| SingleRole.RenamedIs | backend/alembic/versions/a1b2c3d4e5f7_casbin_authorization.py:85-88 | exactly the legacy administrator code is renamed |
| SingleRole.Database.KeepEarliest | backend/alembic/versions/f1a2b3c4d5e6_single_role_rbac.py:30-57 | expires every active row that is not first; the index is built |
| SingleRole.Database.NormalizeAll | backend/alembic/versions/a2b3c4d5e6f7_rbac_assignment_integrity.py:24-45 | opens the first active row and expires the others, with the index checked after each row |
| SingleRole.Database.MapRoleless | backend/alembic/versions/a2b3c4d5e6f7_rbac_assignment_integrity.py:47-82 | each active user without an open row gets one on the role without permissions; nothing else changes |
| SingleRole.Database.ToCasbin | backend/alembic/versions/a1b2c3d4e5f7_casbin_authorization.py:85-113 | copies grants and open assignments; fails exactly when both administrator codes exist |
| SingleRole.Database.MigrateAll | backend/alembic/versions/b4c5d6e7f8a9_single_role_direct_rbac.py:33-106 | from any table, unless both administrator codes exist, the four revisions run through, no user has two roles, and each user ends with exactly the role of the first active row, or the role without permissions, or none; every grant is carried over |
| CasbinCopy.RejoinsIff | backend/alembic/versions/a1b2c3d4e5f7_casbin_authorization.py:43-45 | split and rejoin give the code back if and only if it has a dot |
| CasbinCopy.SplitUndotted | backend/alembic/versions/a1b2c3d4e5f7_casbin_authorization.py:43-45 | without a dot the code is the object, and the action is empty |
| CasbinCopy.SplitOfRejoin | backend/alembic/versions/a1b2c3d4e5f7_casbin_authorization.py:43-45 | the dot put in by joining is the one the split finds |
| CasbinCopy.GrantsSurviveIff | backend/alembic/versions/a1b2c3d4e5f7_casbin_authorization.py:90-100 | upgrade then downgrade restores exactly the original grants if and only if every granted code is dotted and not on the wildcard object |
| CasbinCopy.AssignmentsSurvive | backend/alembic/versions/a1b2c3d4e5f7_casbin_authorization.py:176-185 | the downgrade gives a user exactly the roles that were open before the upgrade |
| CasbinCopy.FillTable | backend/alembic/versions/a1b2c3d4e5f7_casbin_authorization.py:89-113 | its loops fill the new table with the grants, the assignments and the wildcard, each once |
| RoleFlattening.FlatteningNeverWidens | backend/alembic/versions/b4c5d6e7f8a9_single_role_direct_rbac.py:59-97 | no subject holds anything afterwards that it did not hold before, whatever the links |
| RoleFlattening.KeepsAllRightsIffOneLevel | backend/alembic/versions/b4c5d6e7f8a9_single_role_direct_rbac.py:59-97 | every subject keeps exactly its rights for all possible grants if and only if the links around each recorded parent are one level deep |
| RoleFlattening.DeeperLinkLoses | backend/alembic/versions/b4c5d6e7f8a9_single_role_direct_rbac.py:64-76 | a grant at the far end of any deeper link is lost to the child |
| RoleFlattening.ChainsAreNotPreserved | backend/alembic/versions/b4c5d6e7f8a9_single_role_direct_rbac.py:59-76 | a chain of three roles loses rights |
| RoleFlattening.Ancestors | backend/alembic/versions/b4c5d6e7f8a9_single_role_direct_rbac.py:66-74 | the walk returns the recorded parent and stops there, since a plain code is never a key |
| RoleFlattening.RecordParents | backend/alembic/versions/b4c5d6e7f8a9_single_role_direct_rbac.py:61-64 | every role with a link gets one of its parents recorded |
| RoleFlattening.CollectGrants | backend/alembic/versions/b4c5d6e7f8a9_single_role_direct_rbac.py:76-81 | lists under each code exactly the grants of its role |
| RoleFlattening.MultiRoleUsersAre | backend/alembic/versions/b4c5d6e7f8a9_single_role_direct_rbac.py:38-57 | the abort reports exactly the users linked to two different roles |
| RoleFlattening.CasbinTable.Upgrade | backend/alembic/versions/b4c5d6e7f8a9_single_role_direct_rbac.py:33-97 | aborts exactly when a user has two roles, changing nothing; otherwise the table is the flattened one |
| ConfigVersions.FrozenForever | backend/alembic/versions/f2c3d4e5f6a7_configuration_version_draft_support.py:28-64 | over every run without purge that never moves this version back to draft, it stays, stays frozen, and keeps its number, snapshot, hash and lineage |
| ConfigVersions.SourceNeverLost | backend/alembic/versions/a7c1e2f3b4d5_configuration_version_lifecycle.py:88-95 | the version a frozen one names as its source is never lost over such a run, draft or not |
| ConfigVersions.AlwaysConsistent | backend/alembic/versions/d5e6f7a8b9c0_configuration_versions.py:64-76 | over every run version numbers are unique, at most one version is published and every source exists |
| ConfigVersions.OnePublished | backend/alembic/versions/d5e6f7a8b9c0_configuration_versions.py:69-76 | two published rows of a reachable table are the same row |
| ConfigVersions.NumbersAreUnique | backend/alembic/versions/d5e6f7a8b9c0_configuration_versions.py:64-76 | over every run two rows with one version number are the same row |
| ConfigVersions.DeletableIff | backend/alembic/versions/f2c3d4e5f6a7_configuration_version_draft_support.py:36-41 | outside a purge a version can be deleted if and only if it is a draft that no frozen version names as its source |
| ConfigVersions.DeletedExactly | backend/alembic/versions/a7c1e2f3b4d5_configuration_version_lifecycle.py:88-95 | a successful delete removes that row, clears it as the source of others, and leaves everything else as it was |
| ConfigVersions.FrozenUpdateIff | backend/alembic/versions/f2c3d4e5f6a7_configuration_version_draft_support.py:49-61 | a frozen row can be updated if and only if the change is confined to status, activation and update stamp, and PUBLISHED goes to it only while no other row has it |
| ConfigVersions.StoredIff | backend/alembic/versions/f2c3d4e5f6a7_configuration_version_draft_support.py:43-47 | an insert, or an update of a draft or under the purge hatch, succeeds if and only if id and number are free, the published place is, and the source exists; then the row is stored as given and no other changes |
| ConfigVersions.StatementKeepsFrozenIff | backend/alembic/versions/f2c3d4e5f6a7_configuration_version_draft_support.py:36-61 | a successful statement keeps a frozen version and its snapshot if and only if it is not an update of it to draft |
| ConfigVersions.ReopeningUnfreezes | backend/alembic/versions/f2c3d4e5f6a7_configuration_version_draft_support.py:43-47 | in any table two updates rewrite any frozen snapshot by way of the draft status |
| ConfigVersions.Table.UpdateRow | backend/alembic/versions/f2c3d4e5f6a7_configuration_version_draft_support.py:43-61 | the guard, then the constraints; a refused row leaves no trace |
| ConfigVersions.Table.DeleteRow | backend/alembic/versions/a7c1e2f3b4d5_configuration_version_lifecycle.py:88-122 | the guard, then the foreign key's own updates, each of which meets the guard again |
| ConfigVersions.Table.Transact | backend/alembic/versions/a7c1e2f3b4d5_configuration_version_lifecycle.py:117-122 | all statements or none |
| Fx.RoundIsHalfUp | backend/app/core/fx.py:149-159 | the result is the one whole number within half a unit, ties away from zero |
| Fx.RoundingLinesOrSum | backend/app/core/fx.py:149-164 | rounding n amounts and rounding their sum differ by at most n/2 units |
| Fx.LinesBoundIsTight | backend/app/core/fx.py:149-164 | the bound is attained for every n, rounded down |
| Fx.ConvertingLinesOrSum | backend/app/core/fx.py:162-164 | converting n lines one by one and converting their sum differ by at most n/2 units of the currency, for every rate and precision |
| Fx.QuantizeFixes | backend/app/core/fx.py:149-159 | the result is storable, and exactly the storable amounts are left alone |
| Fx.QuantizeIsNear | backend/app/core/fx.py:149-159 | the change is at most half a unit |
| Fx.QuantizeIsMonotone | backend/app/core/fx.py:149-159 | rounding keeps order |
| Fx.QuantizeIsOdd | backend/app/core/fx.py:149-159 | rounding commutes with the sign |
| Fx.NormalizeAcceptsIff | backend/app/core/fx.py:74-106 | exactly the finite rates from half of 1e-8 up to 1e9 are accepted |
| Fx.NormalizeLands | backend/app/core/fx.py:99-106 | what is stored is a multiple of 1e-8 in (0, 1e9] within half of 1e-8 of the input |
| Fx.NormalizeRefuses | backend/app/core/fx.py:74-106 | the exact condition of each refusal: unreadable, not positive, above 1e9, and too small to store |
| Fx.NormalizeFixes | backend/app/core/fx.py:74-106 | the rates that pass unchanged are exactly the multiples of 1e-8 in (0, 1e9] |
| Fx.NormalizeTwice | backend/app/core/fx.py:74-106 | storing a stored rate again changes nothing |
| Fx.ValidButNotStorable | backend/app/core/fx.py:65-71 | `is_valid_rate` accepts, beyond what can be stored, only the positive rates that are too small |
| Fx.DocumentRateIsStable | backend/app/core/fx.py:115-135 | a document's rate is storable, positive and at most 1e9, and carrying it again keeps it |
| Fx.DocumentRateIs | backend/app/core/fx.py:109-135 | one if both currencies are given and equal, trimmed and in upper case; otherwise a missing rate is refused and any other is normalised |
| Fx.BaseCurrencyConvertsToItself | backend/app/core/fx.py:122-129 | in the base currency no client value counts, and conversion keeps exactly the storable amounts |
| Fx.CurrencyPrecision | backend/app/core/fx.py:138-146 | the precision is between 0 and 6, and the call fails exactly for an infinite setting |
| Fx.PrecisionInRange | backend/app/core/fx.py:138-146 | exactly the settings up to 6 are used as they are |
| Fx.PrecisionIs | backend/app/core/fx.py:138-146 | a blank or unreadable setting means 2; a number is truncated to whole places and held to 0 to 6 |
| Fx.QuantizeMoneyTwice | backend/app/core/fx.py:149-159 | money stored under a precision is a fixed point under that precision |
| Fx.AmountIs | backend/app/core/fx.py:45-62 | blank amounts are zero, numbers are themselves, truth values are refused and text is trimmed before it is read |
| Fx.QuantizeIsRounded | backend/app/core/fx.py:149-159 | a stored amount is the one multiple of the unit nearest to the amount, ties away from zero |
| Fx.QuantizeMoneyIs | backend/app/core/fx.py:149-159 | a finite amount becomes the nearest multiple of one unit of the configured precision, ties away from zero; what cannot be read or rounded is refused |
| Fx.MoneyAtPrecision | backend/app/core/fx.py:138-159 | with a whole number of 0 to 6 configured that is the precision, and 2 when nothing is |
| Fx.ConvertToBaseIs | backend/app/core/fx.py:162-164 | converting finite operands gives their exact product, rounded to the nearest unit of the configured precision; an unreadable operand fails the conversion, and no infinity comes out of it |
| Validation.Validate | backend/app/core/validation.py:129-181 | its loops compute the specified outcome: refused keys in payload order, violated fields in schema order, rules only on clean fields |
| Validation.NormalizeTwice | backend/app/core/validation.py:207-378 | a normalised value is its own normal form, for every kind and every rule |
| ValidationKinds.BlankIs | backend/app/core/validation.py:197-214 | null, white space and empty collections are blank: REQUIRED where the field is, else null, and left as they are for JSON |
| ValidationKinds.BooleanIs | backend/app/core/validation.py:313-324 | accepted as true are exactly true, 1 and the folded true words, as false false, 0 and the false words; all else is INVALID_TYPE |
| ValidationKinds.IntegerIs | backend/app/core/validation.py:275-299 | the whole number denoted by the input, inside the limits; OUT_OF_RANGE exactly outside them, INVALID_TYPE exactly when no whole number is denoted |
| ValidationKinds.DecimalIs | backend/app/core/validation.py:275-310 | the number denoted by the input, inside the limits and of no more places than allowed, with the exact condition of each code |
| ValidationKinds.DateIs | backend/app/core/validation.py:327-338 | the day denoted by the input, INVALID_FORMAT exactly when none is |
| ValidationKinds.DateTimeIs | backend/app/core/validation.py:341-353 | the instant denoted by the input, midnight for a plain date, INVALID_FORMAT exactly when none is |
| ValidationKinds.ReferenceIs | backend/app/core/validation.py:356-378 | a positive whole id, or the trimmed code, TOO_LONG exactly above the limit, INVALID_TYPE otherwise |
| ValidationKinds.JsonIs | backend/app/core/validation.py:229-232 | decimals, dates and date-times are refused, and every other value is kept as it is |
| ValidationKinds.TextIs | backend/app/core/validation.py:237-272 | the text, trimmed unless the field keeps its spaces; each code exactly for the first rule broken |
| Validation.ValidatedIsStable | backend/app/core/validation.py:129-181 | a successful result validates to itself, in either mode; keys are distinct, aliases are no keys and cross-field rules read schema keys only |
| Validation.NormalizedKey | backend/app/core/validation.py:153-166 | under each key the result holds the normal form of what was found under the key or its first alias, or nothing |
| Validation.NormalizedOther | backend/app/core/validation.py:153-166 | apart from the keys the result is the payload without the aliases used |
| Validation.ViolationsInSchemaOrder | backend/app/core/validation.py:153-168 | the errors are those of the violated fields: all of them, once each, in schema order |
| ValidationKinds.SourceIs | backend/app/core/validation.py:149-152 | a field is read from its key, else from the first alias that is there, else not at all |
| ValidationKinds.ViolationIs | backend/app/core/validation.py:153-164 | the error of one field: REQUIRED when a required field is missing in full mode, else the refusal of the value found |
| ValidationKinds.UnknownIs | backend/app/core/validation.py:139-146 | refused as unknown are exactly the keys that are no field, alias or read-only key |
| ValidationKinds.CrossedIs | backend/app/core/validation.py:166-172 | the cross-field errors are exactly the failures of the rules |
| ValidationKinds.PassesIff | backend/app/core/validation.py:129-181 | a payload passes if and only if no key is unknown, no field is violated and no rule fails |
| Validation.FullImpliesPartial | backend/app/core/validation.py:132-135 | full success implies partial success with the same result |
| Validation.PartialBecomesFullIff | backend/app/core/validation.py:132-135 | partial success is full success if and only if every required field is supplied |
| Validation.ValidateLineItems | backend/app/core/validation.py:428-474 | all rows validated one by one, or nothing returned and the errors of every bad row in order |
| Validation.PathIs | backend/app/core/validation.py:451-466 | the path of an error is field, row number and key with dots between, and that of a whole row stops at the number |
| Validation.PathsAddressRows | backend/app/core/validation.py:461-466 | two errors share a path if and only if they are about the same row and, up to final dots, the same key |
| Validation.ErrorsOfRow | backend/app/core/validation.py:448-468 | the errors listed under a row's paths are exactly that row's own |
| RateLimit.AdmittedPerWindow | backend/app/core/rate_limit.py:23-43 | in any window the fallback admits at most `limit` calls, Redis at most 2·limit−1, and any mixture at most 3·limit−1 |
| RateLimit.BoundsAreAttained | backend/app/core/redis.py:100-112 | for every limit, and every window of two ticks or more, one run attains all three bounds at once |
| RateLimit.LastBucket | backend/app/core/rate_limit.py:30-36 | after a fallback call the deque holds exactly the fallback attempts of the last window |
| RateLimit.LastIsAdmittedIff | backend/app/core/rate_limit.py:26-38 | over every run the fallback admits a call exactly when fewer than `limit` attempts, refused ones included, reached it within the window, and Redis exactly when its live counter is below `limit` |
| RateLimit.CallKeepsInv | backend/app/core/rate_limit.py:23-43 | each call keeps: the deque covers the recent attempts and every counter window admits at most `limit` |
| RateLimit.RateLimiter.SafeIncrement | backend/app/core/redis.py:100-112 | increments the live counter or opens a window; the reply may be lost |
| RateLimit.RateLimiter.EnforceRateLimit | backend/app/core/rate_limit.py:23-43 | admits or refuses as specified and leaves other keys alone |
| Cache.NeverFromBeforeABump | backend/app/core/cache.py:53-90 | a get that starts after a bump whose INCR was applied, and reads its version successfully, never returns a value stored by a set whose version read came before that bump |
| Cache.ServedIff | backend/app/core/cache.py:57-90 | an undisturbed get with a successful version read returns a stored value if and only if no bump was applied since its set read the version |
| Cache.RawEqualIff | backend/app/core/cache.py:43-46 | two keys are equal if and only if their versions and their joined parts are |
| Cache.KeyEqualIff | backend/app/core/cache.py:43-46 | parts without a bar: two keys are equal if and only if namespace, version and parts are, none and empty being the same |
| Cache.JoinIsNotInjective | backend/app/core/cache.py:43-46 | parts containing the separator share a key |
| Cache.NextKeepsInv | backend/app/core/redis.py:115-132 | each command, applied or lost, keeps: counters count the applied bumps, and every entry lies under the version its set has read |
| Cache.FoundUnderSameParts | backend/app/core/cache.py:67-79 | a get returns only values stored in its namespace under the same joined parts |
| Cache.FailedReadServesOldValues | backend/app/core/redis.py:126-132 | a get whose version read fails may return a value from before a bump |
| Cache.LostBumpServesOldValues | backend/app/core/redis.py:115-123 | a get after a bump whose INCR was lost may return a value from before it |
| Cache.OldComputationsCanBeStored | backend/app/core/cache.py:82-90 | a set that reads its version after a bump may store an older computation |
| Cache.Redis.Bump | backend/app/core/cache.py:57-64 | one increment for each namespace, in order; it returns normally even when some are lost |
| Cache.Redis.SafeIncr | backend/app/core/redis.py:115-123 | adds one to that counter only, or swallows the error and changes none |
| Cache.Redis.GetJson | backend/app/core/cache.py:67-79 | an undisturbed get has the effect of its commands; an unreadable value is dropped |
| Cache.Redis.SetJson | backend/app/core/cache.py:82-90 | an undisturbed set has the effect of its commands |
| ApiRequests.ActiveRequestsCountOpenFrames | frontend/app/composables/useApi.ts:123-125 | over every interleaving `activeRequests` is the number of open frames |
| ApiRequests.OnlyItsOwnFrameEvicts | frontend/app/composables/useApi.ts:211-214 | a controller leaves the map only by `cancelRequest`, by a newer frame on its key, or when its own frame closes |
| ApiRequests.NoControllerLeaks | frontend/app/composables/useApi.ts:211-216 | when no frame is open no controller is left |
| ApiRequests.OneLiveRequestPerKey | frontend/app/composables/useApi.ts:111-119 | when every call uses `cancelPrevious`, each key has at most one un-aborted request in flight |
| ApiRequests.KeepsSoleIff | frontend/app/composables/useApi.ts:112-119 | opening a frame keeps this if and only if it cancels or no live request of its key is there |
| ApiRequests.RetriesAtMostOnce | frontend/app/composables/useApi.ts:180-186 | a call is retried at most once and a retry never |
| ApiRequests.RetryAbortsNewerCall | frontend/app/composables/useApi.ts:180-186 | an instance: the retry of an older call aborts a newer call of its key |
| ApiRequests.RetryAbortsAnotherIff | frontend/app/composables/useApi.ts:92-119 | in every reachable state, a retry aborts another call if and only if it cancels and the controller registered under its key is not its own |
| ApiRequests.AbortedOnlyBy | frontend/app/composables/useApi.ts:92-116 | over every run a frame is aborted only by `cancelRequest` on its key, a cancelling call on its key, or a cancelling retry on its key, while it is the one registered there |
| ApiRequests.CountFinished | frontend/app/composables/useApi.ts:215-215 | closing an open frame keeps the count, and the counter is at least one then, so the clamp at zero never acts |
| ApiRequests.Client.CancelRequest | frontend/app/composables/useApi.ts:92-98 | aborts and forgets the key's controller, if there is one, and no other |
| ApiRequests.Client.Begin | frontend/app/composables/useApi.ts:111-125 | registers and counts the new frame; aborts the one registered before, only if it cancels |
| ApiRequests.Client.Finally | frontend/app/composables/useApi.ts:211-216 | uncounts the frame, forgets its own controller and keeps all others |
| ApiRequests.Client.FetchAgain | frontend/app/composables/useApi.ts:180-186 | the retry opens a frame inside the old one, or its session checks end the old one |
| CommentWrap.CommentBlock | backend/scripts/generate_schema_docs.py:158-172 | the loop produces the greedy lines of the description's words |
| CommentWrap.GreedySplits | backend/scripts/generate_schema_docs.py:158-172 | wrapping keeps exactly the word sequence; a line is at most 78 wide or one word |
| CommentWrap.GreedyIsOptimal | backend/scripts/generate_schema_docs.py:158-172 | no legal division of the same words uses fewer lines |
| CommentWrap.CommentBlockIsFaithful | backend/scripts/generate_schema_docs.py:158-172 | the printed lines, read back, hold the words in order, within the width, in the fewest lines |
| CommentWrap.BarePrefix | backend/scripts/generate_schema_docs.py:164-171 | the stripped line equals the dashes exactly when it holds no word |
| CommentWrap.OneLineKeepsWords | backend/scripts/generate_schema_docs.py:148-150 | collapsing keeps the words, so it is idempotent |
| CommentWrap.LiteralRoundTrip | backend/scripts/generate_schema_docs.py:153-155 | parsing the quoted literal returns the one-line text and what follows it |
| Naming.SnakeUndoesCamelIff | backend/app/core/serialization.py:8-12 | the snake form of the camel form is the column name if and only if text precedes the first underscore and a letter follows each |
| Naming.ApiKeySortsByItsColumnIff | backend/app/core/pagination.py:68-94 | a column's API key sorts by that very column if and only if its name is of that kind, whatever the other columns are |
| Naming.ApiKeysAreDistinct | backend/app/core/serialization.py:8-12 | two such columns never share an API key |
| Naming.ResolveSortColumn | backend/app/core/pagination.py:68-94 | the candidate search finds what is specified, and only whitelisted columns or alias expressions |
| Naming.SortKeyMeans | backend/app/core/pagination.py:68-94 | an alias decides alone, by its expression or its whitelisted column; otherwise the key, its snake form and its lower-case form are tried in this order; a blank key sorts by nothing |

## Left out

- Journal sessions: the reset waits for all open transactions, and an accounting period is changed
  by a committed step of its own.
- Configuration version transactions follow one another.
- Ids are taken as fixed: no statement changes a primary key.
- Allocations: currencies, savepoints and the purge branch; a raised exception ends its
  transaction at once; documents are not deleted. Deadlock detection and liveness everywhere.
- Trial balance: the join to the accounts table, numeric overflow, and `line_no` uniqueness.
- Reset: the tables other than those of the ledger, and the rows `provision_baseline` adds.
- Sequences: direct edits of a sequence row by an administrator.
- Role compiler: the several hundred entries of the catalog are a parameter with stated
  conditions, and `RoleCatalog` holds thirteen of them; printing and publishing by the rebuild command are not modelled.
- Casbin's own limit on the depth of role links, and role codes that themselves begin with
  `role:` (excluded by `Tidy` and `PlainCode`).
- Migrations: `starts_at`, `assigned_by_user_id` and the module column of permissions; the
  upper-casing of the user status is a given set of active users.
- Decimal context precision of 28 digits: amounts and rates are exact reals, so trailing zeros
  and the rounding of very long products are not modelled.
- Regular expressions, decimal and date literals, case folding beyond ASCII and upper-casing of
  currency codes are functions passed in. Error messages are left out, error codes are kept.
- Field kinds outside the documented list, which behave like text.
- `validate_id_list`, `parse_decimal`, `resolve_line_tax` and `field_from_column`: single
  branches without an invariant between them.
- Rate limiter: the switch that turns it off, and the hashing of its keys.
- Cache: the switch that turns it off, non-positive lifetimes, JSON encoding; hashing is taken
  as injective, and the version counters are never evicted.
- API client: toasts, headers, timeouts and the session checks before a frame opens.
- HTTP handlers, authentication, the Telegram outbox, backups, imports and the report pages.
