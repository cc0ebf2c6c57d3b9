# A verified model of memlinkd

memlinkd takes unused memory away from virtual machines with the virtio balloon and gives it back
again. This project models the daemon in Dafny and proves what it promises: that a guest is
inflated only after it has been idle long enough, that every guest gets its memory back before it
is asked for more, that an episode ends, that the target keeps what the guest needs, and that the
list of machines, the statistics and the configuration the decisions rest on are what they should
be.

## How the model is built

Code that changes state is imperative here too. `Records.VmInfo` is the C record with its list
links, `VmList.List` the intrusive doubly linked list with its cached length, and the methods of
`Controller`, `BalloonThread`, `ExitSection`, `Driver`, `StatsRefresh` and `Config` follow the C
functions statement by statement. Each of them is proved equal to a function on values (`Balloon`,
`Passes`, `ListSpec`, `RefreshSpec`, `ConfigSpec`), and the theorems are about those functions.

What those functions mean is stated apart from them, in plain numbers and field names: `PollMeaning`
says what a poll does to a guest with given statistics, limits and sizes, in cases that cover every
guest with sizes from zero to 2^63 KiB, `ListSpec.UpdateMeaning`, `ListSpec.AddMeaning` and `RefreshSpec.RefreshFields` say which
answer of libvirt ends up in which field, and `Config.Settings.LoadCfgFile` which key sets which
setting.

The history of a record is the sequence of events it has produced: usage classified, inflate
requested, sample taken, first and second step back requested, found whole. `Automaton` says which
histories are legal, and `Automaton.DecideIsLegal` shows that every poll, with any statistics and
any answer of the hypervisor, extends a legal history to a legal history and leaves the record in
the state the history determines. `TraceTheorems` proves what holds of every legal history.
`Daemon` lets the critical sections of all threads run in any order. `DaemonTheorems` lifts the
results about histories to every reachable state, and `Lineage` ties each listed record to the
section that added it and its history to the sections since. On these rest the theorems about whole
runs: `FreshData` (which refresh a decision rests on), `References` (who may free a record),
`ExitTheorems` (who is asked back at exit), `Episodes` (what becomes of a guest that was
inflated), `Inflating` (when a guest is inflated, and to what) and `DomainTheorems` (what libvirt's
answers lead to).

Libvirt is the environment. Whether it accepts the n-th request is membership of n in an arbitrary
set, and the statistics and domain data it delivers are arbitrary. Integers are mathematical, with
the widths and wrap-arounds of the C types written out in `Machine`.

## What turned out not to hold

* The first step back asks for `memory - 2048` in unsigned arithmetic. For a guest below 2 MiB this
  wraps (`PollTheorems.GiveBackTargetIsBelowMemory` says exactly when).
* An episode can end early: a guest that is less than 1 MiB below its memory is taken for returned
  although only the first step back was accepted, with 2 MiB still taken. In every run of the
  daemon, `Episodes.GuestEnds` says that the last accepted request is for all of the memory exactly
  if that does not happen; `Termination.EarlyEndIff` says from where it can, and
  `Reachability.EarlyEndIsReached` is a run of the daemon that ends idle in this way. It repairs
  itself: the guest is found squeezed and asked back again, until the whole memory was accepted
  (`Episodes.GuestSettles`).
* A rebuild of the list forgets what was taken. A guest that was inflated before is left alone by
  the exit section if its record was added anew since (`Reachability.RebuiltGuestIsNotAskedBack`).
  `ExitTheorems.ExitAsksBackIff` has the exact condition: a guest whose last accepted request in the
  whole run is an inflate is asked back exactly when its record has been listed since that request,
  or has been found squeezed.
* When the connection is gone, the refresh leaves the old statistics in place and the decisions go
  on with them (`FreshData.LostConnectionLeavesStaleData`). With a connection they use fresh data only,
  and `FreshData.DecisionsUseFreshData` says in every run which refresh it is from.
* A stop event after a rebuild releases the reference of the list a second time and can free a
  record somebody holds (`References.SecondReleaseFreesAHeldRecord`). `References.StopIsSoundIff` and
  `References.RebuildIsSoundIff` say when it is safe: if no rebuild happened, and no stop event hit
  the record, since it was added. Nothing in the daemon takes references with
  `GetRefVMInfoByDomid` at present.
* Rewriting a configuration file changes a setting only if it is written `key=value`. The file the
  repository ships, and its documentation, write `key = value`
  (`ConfigTheorems.RewriteRoundTrip`, `ConfigTheorems.ShippedFileIsNotRewritten`).
* Rewriting prints every line that mentions the key anew, whatever it is. In a line without a number
  it puts the number left from the lines before, or zero; it cuts off what follows a number; and a
  number that fits no `long` becomes -1. Other keys then read differently than before
  (`Rewriting.JunkBecomesZero`, `Rewriting.TailIsCutOff`, `Rewriting.TooLargeBecomesUnset`).
  `Rewriting.RewriteMeaning` says for every text what any key is read as after any rewrite,
  `Rewriting.RewriteKeepsIff` exactly when another key keeps its value.
* A key is read from the first setting whose key starts with it. It is its own setting, whatever
  the values, exactly when no setting of a longer key comes before
  (`ConfigTheorems.ReadIsLookupIff`, `ConfigTheorems.LongerKeyIsTaken`).
* A number is silently cut to 32 bits unless it fits (`ConfigTheorems.NumbersAreReadModulo`).
* The codes -2 for "error" and -1 for "not found" can be written in the file. For every file,
  `ConfigSpec.CodesAreRead` says when a key reads as one of them, `Config.Settings.LoadCfgFile` that
  loading fails exactly when memory or the file is missing or one of the five keys reads as an
  error, and `Config.ErrorCodeIsUnreadable` that `balloon_enable = -2` and `balloon_enable =
  4294967294` are such files.

The repository's README describes the target as a percentage of the used memory; the code scales
`memory - free`, and the model follows the code. The build uses `-ftrapv`, so that a signed overflow
aborts; the model wraps instead, and `TargetTheorems.TargetExact` shows that for memories up to
(2^63 - 1)/10000 KiB nothing overflows. The fields `minGuarantee` and `lockall` are read but never set
by the repository; the model leaves them arbitrary.

## Model

| member | source | states |
|---|---|---|
| Machine.MinOfSigned | src/util.c:743-751 | the unsigned `MIN` of signed values is the minimum for equal signs and the non-negative operand for mixed signs |
| Machine.UnsignedWindow | src/memlink_core.c:165-190 | an unsigned difference test is the two-sided window test on the true values |
| Machine.ConversionsWrap | src/libvirt_helper.c:185-188 | a conversion to `uint64_t`, `int64_t`, `int` or `int16_t` lands in the range of the type and differs from the value by whole turns only |
| Machine.DivCTruncates | src/memlink_core.c:139-142 | a quotient is cut toward zero |
| TargetTheorems.TargetExact | src/memlink_core.c:113-144 | up to (2^63-1)/10000 KiB the machine arithmetic of the target is the unbounded one: the wrapping differences cancel to memory minus free and no product overflows |
| TargetTheorems.TargetIsLeastSufficient | src/memlink_core.c:137-144 | the target keeps the scaled demand, the configured share, 1 GiB and the guarantee, each capped by the memory, and is the least size that does |
| TargetTheorems.TargetReclaimsOnlyFreeMemory | src/memlink_core.c:137-144 | the target is never above the memory and reclaims at most the free memory |
| TargetTheorems.TargetMonotone | src/memlink_core.c:137-144 | less free memory or larger percentages never lower the target |
| Controller.CheckVmMemoryStat | src/libvirt_helper.c:372-392 | statistics are valid exactly when size, total and one of the two free values are non-zero |
| Controller.RecordPressure | src/memlink_core.c:65-94 | only the counter of a record can change, from zero to one, as the value step says |
| Controller.ComputeTarget | src/memlink_core.c:137-144 | the in-place computation yields the target function of the statistics and percentages |
| Controller.DoBallooning | src/memlink_core.c:98-152 | new record and requests are those of the value step, for either answer; what that step counts and asks for is stated by `PollMeaning.LookedAtPoll` and `PollMeaning.InflateAsksForTheLeast` |
| Controller.BalloonCheck | src/memlink_core.c:156-194 | verdict and new record are those of the value step, whose meaning is in `PollMeaning.StoppedIffSlow` and the lemmas after it |
| Controller.GiveBackStep | src/memlink_core.c:229-245 | one request for the first step; a refusal leaves the record owing it, an acceptance clears the episode state |
| Controller.BalloonOne | src/memlink_core.c:196-257 | one turn of the main loop does to the record, and sends, exactly what the value step says |
| BalloonThread.BalloonMainLoop | src/memlink_core.c:196-257 | the loop over the links is the fold of the step over the records, requests in list order |
| BalloonThread.DecisionSection | src/memlink_core.c:276-311 | the section leaves the list and the request log the four passes on values leave |
| Passes.PassFusion | src/memlink_core.c:279-308 | the passes over the whole list are one decision for each record on its own, for every list and every sequence of answers |
| Passes.PhaseInListOrder | src/memlink_core.c:196-257 | the requests of a poll are for listed records, in list order, at most one for each |
| Automaton.DecideIsLegal | src/memlink_core.c:65-257 | every poll extends a legal history to a legal one and leaves the record in the state the history determines |
| Automaton.NewVmIsExplained | src/memlink_driver.c:70-99 | a new record is in the start state |
| TraceTheorems.EpisodeSafety | src/memlink_core.c:146-257 | after an accepted inflate, or once a guest was found squeezed, the next inflate is not even requested before the first step back was accepted and a later check found the guest whole |
| TraceTheorems.DownIffInflateIsLast | src/memlink_core.c:146-257 | a record is marked deflated exactly while the last accepted request is an inflate, and is then ballooning |
| TraceTheorems.CounterCountsLowPolls | src/memlink_core.c:65-131 | a positive counter is one plus the low polls since the record was last armed |
| TraceTheorems.InflateNeedsNineteenLowPolls | src/memlink_core.c:98-144 | an attempted inflate was preceded by exactly nineteen polls below 30% since the last arming event, with none above 50% in between |
| TraceTheorems.NineteenthLowPollIsNeverPending | src/memlink_core.c:98-144 | between polls fewer than nineteen have been counted, so the attempt is made at the nineteenth |
| TraceTheorems.SpeedTestMeaning | src/memlink_core.c:165-183 | the two slots always hold the last two samples or the initial zeros, and every sample but a stopping one moved by at least 300 MiB |
| TraceTheorems.SampleIsSlowIff | src/memlink_core.c:171-183 | in every history a sample stops the inflate exactly if it is less than 300 MiB away from the one before |
| TraceTheorems.SpeedTestBoundsInflating | src/memlink_core.c:165-183 | a guest that never grows is still inflating after at most `1 + memory / 300 MiB` samples |
| PollTheorems.PollFollowsEdge | src/memlink_core.c:156-257 | every poll is a step of the phase automaton: inflating never ends in idle, returning never in inflating |
| PollTheorems.PollRequests | src/memlink_core.c:196-257 | a poll sends at most one request for a record, and none without a balloon size or for a locked or free-page-reporting guest |
| PollTheorems.InflateNeedsFullMemory | src/memlink_core.c:98-290 | an inflate is requested only for an idle running guest showing at least its full memory, with the computed positive target |
| PollTheorems.WindowsAreExact | src/memlink_core.c:165-190 | the unsigned tests of the balloon check are the intended windows |
| PollTheorems.GiveBackTargetIsBelowMemory | src/memlink_core.c:231-233 | the first step stays below the memory exactly from 2 MiB on |
| PollMeaning.UsageMeaning | src/memlink_core.c:78-91 | for all statistics, a usage counts as low exactly below 30% and as high exactly above 50%; reporting more free than total memory counts as high |
| PollMeaning.PollClassifies | src/memlink_core.c:65-125 | a poll records a low usage exactly below 30%, a high one and pressure exactly above 50%, of exactly the guests it looks at |
| PollMeaning.LookedAtPoll | src/memlink_core.c:98-152 | the counter of an idle running guest becomes one above 50%, grows by one below 30% once it is positive, and at twenty is cleared with a request for the target; nothing else changes |
| PollMeaning.InflateAsksForTheLeast | src/memlink_core.c:137-146 | every inflate asks for the least size that keeps the scaled demand, the configured share, 1 GiB and the guarantee, and takes only memory the guest has left |
| PollMeaning.SqueezedIff | src/memlink_core.c:278-290 | a guest is found squeezed exactly if it is idle, delivers statistics and shows less than its memory |
| PollMeaning.SqueezedPoll | src/memlink_core.c:225-244 | it is asked back in the same poll, to 2 MiB below its memory, unless it may not be ballooned |
| PollMeaning.StoppedIffSlow | src/memlink_core.c:171-183 | an inflating guest outside the target window is stopped exactly if it moved by less than 300 MiB since the last sample |
| PollMeaning.GivesBackPoll | src/memlink_core.c:156-244 | when memory is owed, the target is reached or the guest is slow, 2 MiB below the memory is asked for; acceptance ends the inflate, refusal is remembered |
| PollMeaning.InflatingPoll | src/memlink_core.c:171-183 | otherwise an inflating guest gets its sample recorded and no request |
| PollMeaning.ReturningPoll | src/memlink_core.c:184-254 | a returning guest is asked for the rest from 2 MiB down to 1 MiB below its memory, and counts as whole when it is closer |
| PollMeaning.QuietPoll | src/memlink_core.c:203-217 | every other guest gets no request and keeps its record, apart from the pressure mark |
| Termination.EpisodeEnds | src/memlink_core.c:165-255 | an episode of a cooperative guest ends within an explicit number of polls, counting what refusals cost, and the last accepted request is for the whole memory exactly if it does not end early |
| Termination.EpisodeSettles | src/memlink_core.c:165-290 | with any finite number of refusals, and through early ends, the guest is in the end back with the whole memory as the last accepted request |
| Termination.CooperativeRunsExist | src/memlink_core.c:165-255 | from every state of an episode of a guest above 2 MiB, and for all answers, there are cooperative runs of any length |
| Termination.EarlyEndIff | src/memlink_core.c:184-255 | once the first step back was accepted, some cooperative run ends early exactly when the guest is at most 1022 KiB below its memory |
| Termination.DeflatedIsNotEarly | src/memlink_core.c:184-255 | no run ends early in which the guest was 1 MiB below its memory until it was asked back |
| Termination.UnmovedGuestEndsEarly | src/memlink_core.c:165-255 | after every accepted inflate of a guest with full memory that then stays where it is, or moves by less than 1 MiB in the last of these polls, the episode ends early after two or three polls with every request accepted and 2 MiB not given back; with a move of 1 KiB the guest counts as cooperative |
| Reachability.EarlyEndIsReached | src/memlink_core.c:165-255 | a run of the daemon, through an accepted inflate, to a state in which the record is idle while the last accepted request is for 2 MiB less than the memory |
| Episodes.EpisodeStarts | src/memlink_core.c:146-310 | in every run, a decision section that inflates a guest puts its record at the start of an episode, with the computed target as the last accepted request |
| Episodes.GuestEnds | src/memlink_core.c:165-310 | in every run of the daemon, with other records and any other sections in between, the episode of a cooperative guest ends, with the last accepted request for the whole memory if it does not end early and for 2 MiB less if it does |
| Episodes.GuestSettles | src/memlink_core.c:165-310 | in every run of the daemon, through early ends and any finite number of refusals, a cooperative guest is in the end idle with the whole memory as the last accepted request |
| Guests.EpisodesHappen | src/memlink_core.c:259-311 | for all answers there are runs of the daemon of any length in which a guest was inflated and cooperates, and to which these theorems apply once they are long enough |
| Reachability.EdgeIsTaken | src/memlink_core.c:156-257 | for every edge of the phase automaton there is a run of the daemon and a turn of the balloon thread that takes it |
| Termination.InflateStartsEpisode | src/memlink_core.c:146-152 | an accepted inflate of any reachable record starts an episode the bound applies to |
| ExitSection.BalloonBackVmMem | src/memlink_core.c:341-364 | every ballooning record, and no other, is asked back until the first success or ten failures, in list order, with the answers the hypervisor gives |
| ExitSection.BackMeaning | src/memlink_core.c:348-358 | what is asked of a record at exit: its memory, or 1 GiB if that is negative, up to ten times and not again after it was accepted |
| Driver.VMInfoUnref | src/memlink_driver.c:217-238 | a reference is dropped; the last one unlinks and frees the record, and the list stays well formed |
| Driver.VMInfoRef | src/memlink_driver.c:226-230 | one more reference, nothing else changes |
| Driver.InitAndCheckVM | src/memlink_driver.c:133-180 | succeeds exactly when lookup, name, huge-page check and information succeed, and then the record is filled from them |
| Driver.FindAddVMToList | src/memlink_driver.c:182-215 | a domain not listed yet is put in front once it can be described; otherwise nothing changes |
| Driver.FindDeleteVMFromList | src/memlink_driver.c:240-252 | the first record of that name loses a reference |
| Driver.GetRefVMInfoByDomid | src/memlink_driver.c:254-268 | the record of the domain, with one more reference, or null |
| Driver.PutUnrefVMInfo | src/memlink_driver.c:270-278 | gives a reference back; null is ignored |
| Driver.FreeAllVM | src/memlink_driver.c:118-131 | the loop ends, reads no freed record, and drops one reference of every record: survivors keep their order |
| Driver.UpdateAllVmInfo | src/memlink_driver.c:297-308 | every record takes the answer for its domain; a failed query leaves it alone |
| ListSpec.UpdateMeaning | src/libvirt_helper.c:186-188 | an answer sets memory from the maximum, the current size from the memory, and the state, and nothing else; without an answer nothing changes |
| ListSpec.AddMeaning | src/memlink_driver.c:70-215 | a domain is added exactly if it is new and can be described; its record has libvirt's sizes, is idle and armed, and has one reference and no statistics |
| DomainTheorems.UpdateInRun | src/memlink_driver.c:297-308 | the same for every record in every run |
| DomainTheorems.AddInRun | src/memlink_driver.c:182-215 | in every run an added domain has libvirt's sizes in its record |
| DomainTheorems.SqueezedAfterUpdate | src/memlink_core.c:278-290 | in every run, after an update the next decision finds an idle guest squeezed exactly if it delivers statistics and its maximum is above its memory |
| DomainTheorems.SqueezedAfterAdd | src/memlink_core.c:278-290 | the same for a domain that was just added and then reported its statistics |
| VmList.List.Remove | src/memlink_driver.c:217-224 | unlinking keeps the links a well-formed doubly linked list of the remaining records and its count |
| VmList.List.InsertHead | src/memlink_driver.c:202-204 | inserting keeps them too, with the new record first |
| ListSpec.FreeAllConcat | src/memlink_driver.c:118-131 | releasing a list is releasing its parts in order, each record once |
| ListSpec.FreeAllEmptyIff | src/memlink_driver.c:118-131 | the list is empty afterwards exactly when nobody else held a reference |
| StatsRefresh.GetOneDomainStats | src/libvirt_helper.c:219-264 | the record of the domain takes the parameters in order; an unknown domain changes nothing |
| StatsRefresh.ClearAllDomainStats | src/libvirt_helper.c:266-277 | all statistics and the free-page flag of all records are cleared, nothing else |
| StatsRefresh.GetAllDomainsStats | src/libvirt_helper.c:279-307 | the whole refresh, for a missing connection, a failed request and any delivered records |
| RefreshSpec.RefreshMeaning | src/libvirt_helper.c:232-307 | each record ends up with the last value delivered for its domain under each name, cleared where none was, and its controller state untouched |
| RefreshSpec.RefreshFields | src/libvirt_helper.c:232-277 | which parameter name sets which field, each with the last value delivered for the domain, and that nothing else changes |
| RefreshSpec.FailedRefresh | src/libvirt_helper.c:266-307 | a failed request leaves all records without statistics, a missing connection leaves them alone |
| RefreshSpec.LastOfMeaning | src/libvirt_helper.c:244-262 | the last parameter of a name is one that was delivered for the domain with no other after it, and there is none only if none was delivered |
| Daemon.StepIsListOperation | src/memlink_core.c:259-311 | on the records, each section is the operation its method is proved to perform |
| DaemonTheorems.RunIsOk | src/memlink_core.c:268-315 | in every reachable state domains are distinct, references positive, and every record is explained by its history |
| DaemonTheorems.EveryHistoryIsSafe | src/memlink_core.c:65-257 | for every listed record, since it was added: episode safety, inflating at full memory only, the deflated mark and the counter hold in every run of all threads |
| DaemonTheorems.SectionInflatesWholeGuests | src/memlink_core.c:276-310 | a section asks a guest to inflate only if the record shows its full memory in that section and everything taken since the record was added was returned |
| Inflating.AddedIsNewHistory | src/memlink_core.c:276-310 | what a decision section adds to the history of a record is what the poll of that record does |
| Inflating.SectionClassifies | src/memlink_core.c:65-125 | in every run, a decision section records a low usage exactly below 30% and a high one exactly above 50% of the guests it looks at |
| Inflating.SectionInflatesToTheLeast | src/memlink_core.c:137-146 | in every run, every inflate asks for the least sufficient size for the statistics of that section |
| Inflating.InflateNeedsNineteenLowSections | src/memlink_core.c:98-144 | in every run, an inflate is requested only in a section that finds less than 30% in use, and with it at least nineteen sections have since the record was added, without one above 50% in between |
| Lineage.WasAdded | src/memlink_driver.c:182-215 | in every run each listed record was added by a section of the run and has been listed ever since |
| Lineage.TraceSince | src/memlink_core.c:259-311 | the history of a listed record is what its domain did in the decision sections since it was added |
| FreshData.SeenSince | src/libvirt_helper.c:279-307 | a record is marked as seen exactly if some refresh with a connection came after the section that added it |
| FreshData.DecisionsUseFreshData | src/libvirt_helper.c:232-307 | in every run, requests go only to records added before the last connected refresh for which that refresh delivered a non-zero size, and it is the latest refresh exactly when that had a connection |
| FreshData.LostConnectionLeavesStaleData | src/libvirt_helper.c:287-289 | without one, a run in which a request rests on old statistics |
| DaemonTheorems.SectionRequestsInListOrder | src/memlink_core.c:196-257 | in every reachable state a poll sends at most one request to a domain, in list order |
| ExitTheorems.SectionRequests | src/memlink_core.c:276-310 | the requests a decision section sends to a domain are exactly those in the events of its record |
| ExitTheorems.ExitAsksBackIff | src/memlink_core.c:341-364 | a guest whose last accepted request in the whole run is an inflate is asked back at exit, up to ten times until it agrees, exactly when its record has been listed since that request or was found squeezed; otherwise it is left alone |
| ExitTheorems.ExitAsksBallooningGuests | src/memlink_core.c:341-364 | in every run the exit section asks back exactly the ballooning records, among them each one whose last accepted request since it was added is an inflate |
| Reachability.RebuiltGuestIsNotAskedBack | src/libvirt_helper.c:490-493 | a run in which the last accepted request of a listed guest is an inflate and the exit section leaves it alone |
| References.CountsAreExact | src/memlink_driver.c:182-278 | in a run that releases each list reference at most once, every count is the outstanding handles plus the list's reference |
| References.FreedIffUnheld | src/memlink_driver.c:226-278 | then a section frees a record exactly when no reference to it remains |
| References.OwnSince | src/memlink_driver.c:70-252 | with the section that added a record, the list still holds its own reference exactly when no rebuild and no stop event that hit the record came since |
| References.StopIsSoundIff | src/memlink_driver.c:232-252 | a stop event keeps every count exact and every held record listed exactly when the record it hits was not released since it was added |
| References.RebuildIsSoundIff | src/memlink_driver.c:118-131 | a rebuild does exactly when no listed record was released since it was added |
| References.SecondReleaseFreesAHeldRecord | src/libvirt_helper.c:490-493 | a run in which a second release frees a held record |
| Text.PrintReadsBack | src/memlink_driver.c:364-432 | a printed number is read back, behind any spaces and before any non-digit |
| Text.StrtolMeaning | src/memlink_driver.c:371 | white space, a sign and all digits that follow are read, or nothing |
| Text.ValueIsDecimal | src/memlink_driver.c:371 | digits are read in base ten |
| ConfigSpec.TrimMeaning | src/memlink_driver.c:310-317 | exactly the blanks and line ends at the end are cut, down to the first character |
| ConfigSpec.NumeralIsConsumed | src/memlink_driver.c:319-370 | what the digit check accepts, `strtol` reads to the last character |
| ConfigSpec.LinesOfJoin | src/memlink_driver.c:412-443 | lines written one after the other are read back as those lines |
| ConfigTheorems.NumeralValue | src/memlink_driver.c:319-343 | spaces, an optional minus sign and digits are accepted and read as their value |
| ConfigSpec.ReadIsFirstSaying | src/memlink_driver.c:345-400 | of any file a key is read from the first line that is well formed for it, or is not found |
| ConfigSpec.CodesAreRead | src/memlink_driver.c:345-400 | a key of any file reads as an error exactly when that line has a number out of range or -2, and as not found exactly when there is none or it has -1 |
| ConfigTheorems.ReadLineOfItem | src/memlink_driver.c:357-394 | the line of a setting is read by exactly the keys its own key starts with |
| ConfigTheorems.ReadIsLookupPrefix | src/memlink_driver.c:345-400 | of any file of settings and comments, with any spacing, a key is read as the first setting whose key starts with it |
| ConfigTheorems.ReadIsLookupIff | src/memlink_driver.c:345-400 | a key is read as its own first setting, whatever the values, exactly when no setting of a longer key comes before |
| ConfigTheorems.LongerKeyIsTaken | src/memlink_driver.c:358 | a file in which the key has a setting of its own and that of a longer key is read |
| ConfigTheorems.NumbersAreReadModulo | src/memlink_driver.c:364-383 | every number, with sign and spacing, is cut to 32 bits if it fits 64 and is an error otherwise; it is unchanged exactly when it fits 32 |
| ConfigTheorems.ErrorCodeInFile | src/memlink_driver.c:364-400 | a line with -2, or with a number that is cut to it, makes its key read as an error |
| ConfigTheorems.CopyRewritesItems | src/memlink_driver.c:402-443 | a rewritten file has, line by line, the rewritten settings and the comments |
| ConfigTheorems.RewriteRoundTrip | src/memlink_driver.c:345-443 | for every file of settings and comments and all keys: what was read from a setting of the rewritten key written as `key=value` is now the new value, everything else reads as before |
| Rewriting.RewriteMeaning | src/memlink_driver.c:345-443 | for every text, whatever its lines are: after the rewrite a key is read from the first line that is heard, with the new value, the number behind the equals sign or the one left from earlier lines, or as before if that line was left alone |
| Rewriting.RewriteKeepsIff | src/memlink_driver.c:402-443 | another key keeps its value exactly when that line was left alone, has a numeral that fits a `long`, or has none and by luck gets the number read behind it |
| Rewriting.OthersAreKept | src/memlink_driver.c:402-443 | if every line with the key that is no comment has a numeral that fits a `long`, only what was read from the setting of the key changes |
| Rewriting.JunkBecomesZero | src/memlink_driver.c:424-433 | a longer key in a line without a number is not found before the rewrite and read as 0 after it |
| Rewriting.TailIsCutOff | src/memlink_driver.c:424-433 | a number followed by junk is not found before and read after it |
| Rewriting.TooLargeBecomesUnset | src/memlink_driver.c:424-433 | a number that fits no `long` is an error before and -1 after it |
| ConfigTheorems.SpacedFileIsNotRewritten | src/memlink_driver.c:402-443 | no rewrite changes what any key reads from a file whose settings all have a space before the equals sign |
| ConfigTheorems.ShippedFileIsNotRewritten | src/memlinkd.conf:1-2 | the shipped file is such a file |
| ConfigTheorems.ShippedFileText | src/memlinkd.conf:1-2 | character for character |
| Config.TrimNewLine | src/memlink_driver.c:310-317 | in place, the buffer holds the trimmed text and what is before it is untouched |
| Config.CheckAllDigits | src/memlink_driver.c:319-343 | accepts exactly spaces, an optional minus sign and digits to the end |
| Config.GetIntegerValueFromCfg | src/memlink_driver.c:345-400 | the loop over the lines reads the value the specification says, with the error code for a missing file and for a number that does not fit |
| Config.CopyToFile | src/memlink_driver.c:402-443 | the loop writes the text the specification says, with the parse results that stay around |
| Config.SetValueToCfg | src/memlink_driver.c:445-481 | the file becomes the rewritten text, or stays when it or its copy cannot be opened or renamed |
| Config.Settings.LoadCfgFile | src/memlink_driver.c:493-552 | fails exactly when memory or the file is missing or a key reads as an error, and then changes nothing; of any file of settings each of the five keys sets its own setting, to what its first setting says or to its default, if that is in its range; the settings stay in range and the percentages loadable for every file |
| Config.LoadTwoPercentages | src/memlink_driver.c:512-544 | a file with two lines that sets the percentages to 200 and 60 and leaves the defaults |
| Config.ErrorCodeIsUnreadable | src/memlink_driver.c:483-520 | two files that cannot be loaded because of the error code |
| Config.LoadedTargets | src/memlink_driver.c:536-544 | with the percentages any file sets, the target is the least sufficient one and reclaims free memory only |
| Tokens.NextToken | src/util.c:462-480 | the words are the longest pieces without a colon, in order, none skipped |
| Tokens.NotInSegment | src/util.c:466-479 | a word without NUL never reaches over the end of an argument |
| Tokens.ContainOneOfTokens | src/util.c:455-483 | the answer is one exactly when some word occurs in the bytes of the command line |

## Left out

- Controller.GuestUsage: the usage percentage is compared exactly, `100 * used` with `50 * total` and `30 * total`; the daemon divides in `float` and its rounding is not modelled.
- Episodes.GuestSettles: assumes that statistics arrive, that the domain information agrees with them in the decision sections, and that the guest moves at least 1 KiB a poll toward the accepted size without overshooting; guests that do not are outside the theorem.
- ConfigTheorems.RewriteRoundTrip: is about files of settings and comments; `Rewriting` has all others.
- PollMeaning.GivesBackPoll: is about sizes from zero to 2^63 KiB, as `InflatingPoll` and `ReturningPoll` are; beyond that only the machine arithmetic of `Balloon` says what happens.
- Config.Settings.LoadCfgFile: `errno` counts as clear before `strtol`, as it does in a fresh process; a stale value would turn a good number into an error.
- Rewriting.RewriteMeaning: lines are read back whole; a line longer than the 1023 characters of the buffer would be split.
- Config.CopyToFile: input and output errors in the middle of a file are not modelled.
- Driver.InitAndCheckVM: the domain handle, the Windows flag, which nothing reads, and the statistics period are not part of the record.
- Records.Hypervisor.SetVmBalloonTarget: libvirt answers 0 or -1; other values would be treated like one of them.
- Tokens.NextToken: `strtok_s` also overwrites the colons in its buffer, which nothing reads afterwards.
- RefreshSpec.RefreshMeaning: the parameter names are an enumeration with one case for every other name.
- The two-slot sample buffer is a sequence of length two inside the record.
- Freeing a record is a ghost mark that forbids reading it; the memory is not reused in the model.
- Connection handling, event registration, threads, semaphores, sleeping, signals and logging; each section under the list lock is one atomic step.
- The allocation failure of a configuration record is a parameter, that of other buffers is not modelled.
- Decision sections that the balloon thread may still run after the exit section has released the lock.
- `GetVmMemoryStat`, `HostMemInfo`, swap counters and other fields and functions nothing uses.
