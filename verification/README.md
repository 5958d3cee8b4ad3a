# node-configurator: a Dafny model

node-configurator brings a Kubernetes worker to a desired state. Each resource has a `Check` that only reads and an
`Apply` that mutates, and an engine takes the resources in a fixed order over one shared host. This project models
that host, the resources and the engine, and proves what whole passes do: when a pass reaches a fixed point, that
`Check` and `Apply` agree on drift, and that resources which share a file do not undo each other.

`dafny verify dfyconfig.toml` checks everything.

## How it is modelled

- **Host and kernel.** The host (`HostState`) is a value: ordinary files, sysctl files, the texts of /proc/modules,
  /proc/mounts and /proc/swaps, and the sets of paths and commands that fail. The kernel is a record of arbitrary
  functions on those texts; theorems state the laws they need of it, in terms of what the resources' own parsers read
  back (`Convergence.Lawful`), and `NodeRuns.PlainKernelIsLawful` exhibits a kernel that meets them. Interrupts, the NIC,
  CPUs and block devices are further parts of a node (`Machine.System`); their resources are lifted to it, and
  `Machine.PartsRun` shows that a run over the whole list is a run over each part.
- **Failures in runs.** Whole-run theorems assume nothing about what reads, writes and commands succeed: they speak of
  the results the run reports. Their core is that every resource settles when its Apply succeeds (`Engine.Settles`) and
  leaves the ones before it as settled as they were, even when it fails (`Engine.Respects`). `Convergence.Healthy`
  describes hosts on which no run fails.
- **What counts as converged.** `Convergence.Converged` and `Machine.NodeConverged` say it of the host's texts alone:
  fields of lines of /proc/mounts, /proc/swaps, /proc/modules, fstab and the unit listing, sysctl values, queue masks, ring
  sizes, affinities, governors and schedulers. Each resource's `Check` is proved to report no drift exactly then
  (`Machine.QuietMeans`), and when exactly its `Apply` fails is stated beside it.
- **Runs.** `Machine.All` is the list the engine builds, in its order, and `Machine.FilteredIsNarrowed` shows that what
  the filters leave of it is the list of a smaller configuration, so theorems over every configuration cover every
  filtered run.
- **Methods and functions.** What the program does by looping and updating is a method with invariants, proved equal
  to a function of the old state; the theorems are about those functions. `Engine.Node` holds the host that methods
  change. Go's map iteration is an arbitrary choice in `Sysctl.SortedKeys`.
- **Failures** are inputs: `AtomicFile.Faults` has one flag per system call, `HostState.Host` the paths and commands
  that fail, `Facts.Run` the answers of the metadata service and the API.
- **Text.** Strings are sequences of Unicode characters; `Text` defines splitting, joining, trimming and fields.

| file | models |
|---|---|
| Text, Sorting, Numbers | Go's string, sort and strconv operations |
| AtomicFile | writing by temporary file and rename; the one-time backup |
| Fstab, FstabHistory, HostHistory | the two editors of /etc/fstab; any sequence of their edits; whole runs as such sequences |
| ProcSys, Sysctl | sysctl paths, live values, drop-in file |
| KernelModules, SwapMount | modules; swap and mounts over the shared fstab |
| Engine, HostState, HostUnits, Convergence | filtering, running, exit codes; the shared host; its resources, drop-in files included; whole passes over it |
| CpuMask, NicTuning, IrqAffinity, CpuGovernor, IoScheduler | masks, rings and queues, interrupts, governors, schedulers |
| Facts, Profile, Machine, NodeRuns, NodeList | facts and their cache; the profile; the engine's whole list; a built profile run on a node; what that list and its limit files are |

## Where the code falls short of its description

- Re-running `apply` does not always report everything unchanged (README.md:137-138). Sysctl runs before
  kernel-modules and skips absent keys, so a key that a module brings is only set by the next run.
  `Machine.SecondRunQuietIff` gives the exact condition, `Machine.ThirdRunIsQuiet` shows two runs without a failure are
  always enough, and `NodeRuns.BridgeNeedsTwoPasses` shows that every profile built for iptables rules needs both on a
  host without the bridge module, if loading that module brings its sysctl with another value than 1.
- The backup of fstab is written in place. A write cut short leaves a truncated backup that every later run takes for a
  complete one, so the next completed edit leaves the original in neither file (`FstabHistory.TornBackupLosesOriginal`);
  and a failing look-up makes the tool overwrite a good backup (`FstabHistory.MissedBackupIsOverwritten`).
  `FstabHistory.HarmlessIffSafe` gives the exact condition for an edit, `HostHistory.AlwaysKeepsIff` for runs. The comment on the backup also promises a timestamped name;
  the code uses one fixed name, and the model follows the code.
- Sysctl keys whose doubled dots or slashes are stripped can name the same file (`ProcSys.SamePathIff`,
  `ProcSys.CollidesIff`); when they want different values no number of runs settles the resource
  (`Sysctl.SysctlResource.ConvergesIff`, `Sysctl.CollidingKeysNeverSettle`).
- A wanted module that is built into the kernel, or is spelled with a dash, is never listed in /proc/modules and is
  reported as drift for ever (`KernelModules.KernelModuleResource.NeverSettles`, `KernelModules.DashIsUnnameable`);
  `KernelModules.KernelModuleResource.SettlesIff` gives the exact condition.
- A swap unit that systemd goes on listing, although swap is off and the unit masked, keeps the swap resource drifting
  for ever (`SwapMount.StillListedNeverSettles`). `SwapMount.SwapSettlesIff` gives the exact condition: it settles iff no
  unit listed once swap is off is one that masking leaves listed.
- A governor written with white space around it never settles (`CpuGovernor.SettlesIff`, `CpuGovernor.NeverSettles`).
- A positive hugepage count beats an explicit override of its sysctl (`Profile.OverrideWinsIff`).

## Model

| member | source | states |
|---|---|---|
| `Convergence.TwoPassesConverge` | internal/engine/engine.go:47-84 | from any host, whatever may fail on it, for any map from modules to the sysctl files they expose and any choice among the resources: after two passes that report no failure every wanted sysctl that exists holds, every module is listed, no swap is active, every mount is in the mount table and in fstab and every rendered file has its content, and no Check finds anything to do |
| `Convergence.OnePassIff` | internal/engine/engine.go:48-58 | a pass that reports no failure leaves all that in place iff no wanted key, absent before, is exposed unreadable or with another value by a module to be loaded |
| `Convergence.OnePassSuffices` | internal/resource/sysctl.go:51-65 | one such pass is enough when no wanted absent key is exposed by a module that still has to be loaded |
| `Convergence.CleanMeans` | internal/resource/resource.go:63-67 | no Check over the shared host finds drift iff everything wanted is in place, said of the host's texts alone |
| `Convergence.CgroupIsQuiet` | internal/resource/cgroupv2.go:23-39 | cgroup-v2 reports reboot_required iff the host has not the unified hierarchy, and never anything to do |
| `Convergence.PassEffect` | internal/engine/engine.go:142-163 | what a pass without a failure leaves: every resource but sysctl quiet, its drop-in current, and live values the sweep's overlaid on what new modules exposed |
| `Convergence.SecondRunQuietIff` | README.md:137-138 | of the resources over the shared host: after an apply without a failure the second reports no change iff the one-pass condition held before the first |
| `Convergence.ThirdRunIsQuiet` | README.md:127-129 | of the resources over the shared host: after two applies without a failure a further run in either mode leaves it as it is, reports nothing pending and exits 0 |
| `Convergence.CleanIsFixedPoint` | internal/resource/resource.go:63-71 | on a clean host a run changes nothing, reports only unchanged, skipped or reboot_required, and exits 0 |
| `Convergence.MountRespectsMount` | internal/engine/engine.go:63-69 | applying a mount, whether it succeeds or not, leaves every other mount that was settled settled |
| `Convergence.MountRespectsSwap` | internal/resource/mount.go:100-124 | applying a mount, whether it succeeds or not, brings no active swap entry back |
| `Convergence.KmodStep` | internal/resource/kmod.go:59-81 | a module step that does not fail keeps existing sysctl values and adds exactly the exposed files |
| `Convergence.FailureDoesNotSpread` | internal/engine/engine.go:138-141 | whatever fails in a pass, every resource over the shared host but sysctl that was not reported as failed has nothing left to do at its end |
| `Convergence.RestOrdered` | internal/engine/engine.go:47-84 | from the modules on, applying a resource, whether it succeeds or not, leaves those before it as settled as they were |
| `Convergence.SysctlRespects` | internal/engine/engine.go:48-52 | so does sysctl with all the others |
| `Convergence.HealthyRunSucceeds` | internal/engine/engine.go:142-163 | where everything reads, writes are whole and commands run (listing units apart), no run fails |
| `Convergence.HealthyConverges` | internal/engine/engine.go:47-84 | there two passes always converge, and one does iff the one-pass condition holds |
| `Convergence.DropInSettles` | internal/resource/dropinfile.go:24-41 | a drop-in file whose write succeeds has its content |
| `HostUnits.FilterIsNarrowing` | internal/engine/engine.go:105-136 | the filtered list over the shared host is the list of the narrowed configuration |
| `HostUnits.BuildIsHonest` | internal/resource/resource.go:20-25 | no Check of these resources returns an error without failed, or reports a change as made |
| `HostHistory.RunKeepsOriginal` | internal/sysutil/atomic.go:61-79 | any run, on any kernel and whatever commands, reads and writes fail, on a host that neither overlooks nor cuts short a backup: the backup of fstab, if any, is still the original, with none fstab is, and an existing backup is untouched |
| `HostHistory.OriginalSurvivesRuns` | internal/sysutil/atomic.go:61-79 | after any number of runs on such a host an fstab that was edited has its first text in the backup |
| `HostHistory.AlwaysKeepsIff` | internal/sysutil/atomic.go:73-78 | a host keeps the original through every run of every configuration iff it neither overlooks nor cuts short a backup, or never gets as far as an edit |
| `Machine.PartsRun` | internal/engine/engine.go:44-106 | a run over the engine's whole list is the shared host's run and, beside it, the other resources' runs: same final state, results in order |
| `Machine.SecondRunQuietIff` | README.md:137-138 | over the whole list: after an apply without a failure the second one reports no change iff no module to be loaded exposes a wanted absent key unreadable or with another value |
| `Machine.ThirdRunIsQuiet` | README.md:127-129 | over the whole list, on any node: after two applies without a failure everything wanted is in place, and every further run in either mode changes nothing, reports nothing pending and exits 0 |
| `Machine.QuietMeans` | internal/resource/resource.go:63-67 | no Check of the whole list finds drift iff everything wanted is in place, IRQs, rings, queue masks, governors and schedulers included |
| `Machine.FailureDoesNotSpread` | internal/engine/engine.go:138-141 | whatever fails in an apply run of the whole list, every resource but sysctl that was not reported as failed has nothing left to do at its end |
| `Machine.HealthySecondRun` | internal/engine/engine.go:142-163 | where nothing on the shared host fails, a first run without a failure is followed by one without |
| `Machine.TailSettles` | internal/engine/engine.go:86-103 | IRQ affinity, NIC, governor and scheduler each have nothing to do once their Apply succeeds |
| `Machine.AllOrdered` | internal/engine/engine.go:44-106 | over the whole list no resource disturbs one before it, sysctl apart, and sysctl disturbs none |
| `Machine.FilteredIsNarrowed` | internal/engine/engine.go:105-136 | filtering the whole list gives the whole list of a narrowed configuration |
| `Machine.RunKeepsOriginal` | internal/sysutil/atomic.go:61-79 | the guarantee about the backup of fstab on a node that neither overlooks nor cuts short a backup, for every run of the whole list |
| `Machine.AllIsHonest` | internal/resource/resource.go:20-25 | every resource the engine builds reports honestly |
| `Machine.NothingPending` | internal/resource/resource.go:20-25 | no result of any apply run of the tool is would_change |
| `Machine.ExitCodeIs` | internal/engine/report.go:13-36 | the exit code of every run of the tool: 1 iff a result failed; 2 iff check mode found error-free drift and nothing failed |
| `NodeRuns.ProfileConverges` | internal/engine/engine.go:44-106 | for any facts, any overrides with proper keys and a trimmed governor, any filters and whatever may fail: after two applies of the whole list that report no failure, everything the profile asks for is in place, and every further run changes nothing, reports nothing pending and exits 0 |
| `NodeRuns.HealthyProfileConverges` | internal/engine/engine.go:44-106 | where nothing on the shared host fails, the first of the two applies reporting no failure is enough |
| `NodeRuns.ProfileFailureDoesNotSpread` | internal/engine/engine.go:138-141 | for any facts, overrides and filters: whatever fails, every resource of the list but sysctl that is not reported as failed has nothing left to do |
| `NodeRuns.NativeModeNeedsOnePass` | internal/profile/cilium.go:34-48 | without tunnel or iptables modules the second apply of the whole list, under any filters, already reports nothing |
| `NodeRuns.BridgeNeedsTwoPasses` | internal/profile/cilium.go:44-48 | every profile built with iptables rules and the bridge sysctl not overridden, on every healthy host without module and sysctl, for every lawful kernel that brings the sysctl as other than 1: one pass leaves drift, two do not |
| `NodeRuns.BridgeCase` | internal/profile/cilium.go:44-48 | such a kernel and such a host exist |
| `NodeRuns.LimitPaths` | internal/engine/engine.go:71-84 | the limit files are four different files, none of them another file the tool writes |
| `NodeList.ProfileNames` | internal/engine/engine.go:47-103 | the resources built for a profile, by name and in order, with the optional ones exactly when facts and overrides ask for them |
| `NodeList.ProfileTail` | internal/engine/engine.go:86-103 | the interface, CPU count, toggles, governor and scheduler the optional resources get |
| `NodeList.ConfigPlaces` | internal/engine/engine.go:28-39 | the files a profile's settings go to |
| `NodeList.LimitTexts` | internal/resource/limits.go:9-31 | what the limit files say, line by line and field by field |
| `NodeRuns.PlainKernelIsLawful` | internal/resource/kmod.go:100-118 | the laws asked of the kernel can be met for every well-formed configuration |
| `NodeRuns.ProfileKeysProper` | internal/profile/base.go:26-65 | every key a profile sets is proper when the overrides' keys are |
| `NodeRuns.ProfileIsSensible` | internal/engine/engine.go:28-39 | a built profile has distinct sysctl files, well-formed mounts and rendered files apart from each other and from fstab |
| `Engine.Run` | internal/engine/engine.go:142-163 | the loop computes the results and final host of the step-by-step definition |
| `Engine.RunOne` | internal/engine/engine.go:145-160 | one resource: its outcome and the host it leaves, for each mode and failure |
| `Engine.RunAccounting` | internal/engine/engine.go:138-163 | one result per resource, in order, each from the host its predecessors left |
| `Engine.AppliedExactlyOnDrift` | internal/engine/engine.go:151-158 | Apply moves the host, and only on an error-free would_change in apply mode |
| `Engine.CheckLeavesHost` | internal/resource/resource.go:63-67 | check mode leaves the host unchanged and reports each resource's own status |
| `Engine.ApplyLeavesNothingPending` | internal/resource/resource.go:20-25 | for resources that report honestly, no result of an apply run is would_change |
| `Engine.ExitCode` | internal/engine/report.go:17-36 | the loop computes the exit code of the results |
| `Engine.ExitCodeMeans` | internal/engine/report.go:13-16 | for resources that report honestly, over runs: 1 iff something failed; 2 iff check mode found error-free drift and nothing failed |
| `Engine.FilterResources` | internal/engine/engine.go:108-136 | the loops select by disabled, skip and only |
| `Engine.FilterIsSublist` | internal/engine/engine.go:125-135 | filtering keeps, in order, exactly the resources whose names are neither disabled nor skipped and, if only is not empty, are in it |
| `Engine.InFiltered` | internal/engine/engine.go:125-135 | the same of membership: exclusion beats only |
| `Engine.FilteredResults` | internal/engine/engine.go:105-136 | a filtered run has no result for a disabled or skipped name, nor, if only is not empty, for one outside it |
| `Engine.LiftedRun` | internal/engine/engine.go:142-163 | a run of resources that see one part of a node is the run on that part, with the rest untouched |
| `Engine.RunKeeps` | internal/engine/engine.go:142-163 | what every Apply keeps, every run keeps |
| `Engine.FailuresAreIsolated` | internal/engine/engine.go:138-163 | when resources settle on success and leave earlier ones alone, every resource that a run does not report as failed has nothing to do after it |
| `Engine.TwoRunsSettle` | internal/engine/engine.go:142-163 | with one resource in front that the others may disturb, two runs without a failure leave nothing to do |
| `Engine.OnlyFirstMoves` | internal/engine/engine.go:142-163 | once the others have nothing to do, a run is the step of the one in front, and reports nothing iff that one has nothing to do |
| `Fstab.FstabHasActiveSwapLines` | internal/resource/swap.go:124-136 | true iff some uncommented line has type swap |
| `Fstab.FstabLineExists` | internal/resource/mount.go:128-140 | true iff some uncommented line names the mount point |
| `Fstab.ClassifiersByFields` | internal/resource/swap.go:126-133 | both classifiers depend only on the fields of the whole line |
| `Fstab.CommentFstabSwapLines` | internal/resource/swap.go:154-166 | the in-place rewrite of the lines gives the specified text |
| `Fstab.CommentSwapExact` | internal/resource/swap.go:138-170 | same number of lines; a line changes iff it is an active swap entry, by exactly the mark; none is left; idempotent |
| `Fstab.CommentSwapReversible` | internal/resource/swap.go:162 | stripping the mark from the changed lines restores the file byte for byte |
| `Fstab.UncommentAllRestoresIff` | internal/resource/swap.go:162 | stripping every mark restores the file iff no line carried it before |
| `Fstab.PersistFstab` | internal/resource/mount.go:100-124 | the text a mount leaves: unchanged if the path has an entry, else one entry appended on its own line |
| `Fstab.EntryLineReads` | internal/resource/mount.go:118 | the entry of a well-formed mount reads back as an entry for its path and not as swap |
| `Fstab.EntryFields` | internal/resource/mount.go:118 | the entry's fields are device, path, type, the options and two zeros |
| `Fstab.PersistedEntry` | internal/resource/mount.go:100-124 | where no entry names the path, the new text continues the old and has one more line, with exactly those fields |
| `Fstab.AppendedLines` | internal/resource/mount.go:114-118 | appending keeps every non-blank line and adds the entry, with or without a final newline before |
| `Fstab.PassIsFixedPoint` | internal/engine/engine.go:59-69 | from any fstab, swap then mounts leaves no active swap entry, an entry per mount, and a second pass gives identical bytes |
| `Fstab.ReverseOrderIff` | internal/engine/engine.go:59-69 | mount before swap loses the mount's entry iff only swap entries named its path |
| `FstabHistory.BackupIsOriginal` | internal/sysutil/atomic.go:64-79 | over every sequence of edits with safe faults the backup, if there is one, is the text before the first edit, and it is never overwritten |
| `FstabHistory.HarmlessIffSafe` | internal/sysutil/atomic.go:73-78 | whatever disk, edit and later safe edits, a fault pattern leaves the original in the backup or in fstab, iff it neither overlooks an existing backup nor cuts a new one short |
| `FstabHistory.TornBackupLosesOriginal` | internal/sysutil/atomic.go:74-78 | after a backup was cut short, any later edits that include a completed one and do not overlook the backup leave the torn text in it and the original in neither file |
| `FstabHistory.BackupStays` | internal/sysutil/atomic.go:74-76 | a backup, whatever it holds, stays through every sequence of edits that do not overlook it |
| `FstabHistory.EditLengthens` | internal/resource/swap.go:154-170 | no edit shortens fstab, and a completed one lengthens it, so no edit restores an earlier text |
| `FstabHistory.MissedBackupIsOverwritten` | internal/sysutil/atomic.go:74-78 | a failing look-up makes the edited file replace the backup, and the original is in neither file |
| `AtomicFile.FileSystem.WriteFileIfChanged` | internal/sysutil/atomic.go:24-59 | the steps, with a failure possible at each; every disk state on the way holds the whole old or whole new target |
| `AtomicFile.NeverTorn` | internal/sysutil/atomic.go:37-58 | at no step is the target torn, nor does it go back to old once new; other files are untouched |
| `AtomicFile.WriteOutcome` | internal/sysutil/atomic.go:21-59 | exactly when the call fails; error: target as it was; success: exactly the content; changed iff it differed; when precisely the temporary file survives |
| `AtomicFile.SecondWriteIsNoop` | internal/sysutil/atomic.go:25-28 | repeating a successful write writes nothing |
| `AtomicFile.FileSystem.BackupFile` | internal/sysutil/atomic.go:64-79 | the backup step with its failures, and every disk state on the way: opened and empty, then what was written of it |
| `AtomicFile.BackupOutcome` | internal/sysutil/atomic.go:64-79 | a backup is made exactly when an existing file has none that is seen, and the call fails exactly when reading, opening or writing does |
| `AtomicFile.BackupMoments` | internal/sysutil/atomic.go:73-78 | at no moment is another file touched or a backup that is seen replaced; one being written is empty or as the call leaves it |
| `HostState.WriteFileIsTrace` | internal/sysutil/atomic.go:24-59 | the write used by the resources is the step-by-step one with the host's failures |
| `ProcSys.PathNormalForm` | internal/sysutil/procsys.go:13-19 | every key resolves to proc/sys below the root followed only by non-empty elements free of dots and slashes |
| `ProcSys.ProperKeysInjective` | internal/sysutil/procsys.go:14-18 | keys with non-empty, slash-free components never share a file |
| `ProcSys.ProperKeyPath` | internal/sysutil/procsys.go:13-19 | the file of a proper key: its components, in order, below proc/sys |
| `ProcSys.CleanLeaves` | internal/sysutil/env.go:23-30 | a cleaned path has no empty or "." element, nor ".." below a root |
| `ProcSys.ParentCancels` | internal/sysutil/env.go:23-30 | an element followed by ".." cancels |
| `ProcSys.SamePathIff` | internal/sysutil/procsys.go:13-19 | two keys share a file iff the same non-empty elements are left of them |
| `ProcSys.CollidesIff` | internal/sysutil/procsys.go:13-19 | a key that names a file shares it with a proper key other than itself iff it is improper |
| `ProcSys.ImproperKeysCollide` | internal/sysutil/procsys.go:14-15 | a doubled dot and a slash each make two keys share a file |
| `ProcSys.CleanJoined` | internal/sysutil/env.go:23-30 | joining plain elements onto a root cleans only the root |
| `Sysctl.NormalizeIff` | internal/resource/sysctl.go:98-100 | two values compare equal iff they have the same fields; trimming first changes nothing |
| `Sysctl.SortedKeys` | internal/resource/sysctl.go:122-129 | whatever order the map yields its keys in, the list is the same ascending one |
| `Sysctl.RenderSysctlFile` | internal/resource/sysctl.go:113-120 | the drop-in text is a function of the settings |
| `Sysctl.DecodeRender` | internal/resource/sysctl.go:113-120 | an independent reader gets the settings back from the drop-in |
| `Sysctl.RenderInjective` | internal/resource/sysctl.go:110 | two maps render alike iff they are equal, for keys without blanks or newlines and one-line values |
| `Sysctl.RenderStartsWithNotice` | internal/resource/sysctl.go:115 | the drop-in starts with the notice that it is managed |
| `Sysctl.BlankInKeyCollides` | internal/resource/sysctl.go:117 | with a blank in a key two different maps share a file |
| `Sysctl.SysctlResource.PersistNeededIff` | internal/resource/sysctl.go:102-111 | a rendered drop-in is out of date iff it came from other settings |
| `Sysctl.SysctlResource.DiffLive` | internal/resource/sysctl.go:74-90 | the loop finds the drifted keys in order, or fails on an unreadable one |
| `Sysctl.SysctlResource.CheckNode` | internal/resource/sysctl.go:28-49 | the status from live drift and the drop-in |
| `Sysctl.SysctlResource.CleanIff` | internal/resource/sysctl.go:34-48 | unchanged iff every existing key reads back with the wanted fields and the drop-in is current |
| `Sysctl.SysctlResource.FailedIff` | internal/resource/sysctl.go:28-32 | Check fails iff some wanted key's file exists and cannot be read |
| `Sysctl.SysctlResource.KeyFailsIff` | internal/resource/sysctl.go:51-64 | with distinct files Apply fails on a key iff some wanted key exists, is not up to date and cannot be written |
| `Sysctl.SysctlResource.PersistFailsIff` | internal/resource/sysctl.go:66-70 | otherwise on the drop-in iff that cannot be read, or differs and cannot be written |
| `Sysctl.SysctlResource.UpToDateIsLeftAlone` | internal/resource/sysctl.go:57-60 | a file whose keys are all up to date is not written |
| `Sysctl.SysctlResource.ApplyNode` | internal/resource/sysctl.go:51-72 | the sweep over sorted keys and the drop-in write, stopping at the first failure |
| `Sysctl.SysctlResource.ConvergesIff` | internal/resource/sysctl.go:51-72 | a successful Apply is followed by a clean Check iff no two existing keys want different values in one file and all can be read |
| `Sysctl.SysctlResource.ConflictNeverSettles` | internal/resource/sysctl.go:54-64 | two keys that want different fields in one existing file are drift after any number of Applies, whatever the kernel does |
| `Sysctl.CollidingKeysNeverSettle` | internal/resource/sysctl.go:54-64 | settings with a doubled dot, and with a slash, for which that happens on every host that has the file |
| `Sysctl.SysctlResource.PartialFailure` | internal/resource/sysctl.go:61-63 | when a key's write fails, every existing key before it has converged; it, the later keys and all files are untouched |
| `Sysctl.SysctlResource.CleanApplyIsNoop` | internal/resource/resource.go:68-71 | Apply on a clean host writes nothing |
| `Sysctl.ProperKeysDistinctPaths` | internal/sysutil/procsys.go:13-19 | proper keys discharge the distinct-file assumption |
| `KernelModules.LoadedModules` | internal/resource/kmod.go:102-118 | the first field of every line that has one |
| `KernelModules.RenderModulesFile` | internal/resource/kmod.go:120-128 | the drop-in text of a module list |
| `KernelModules.ReadRendered` | internal/resource/kmod.go:120-128 | an independent reader gets the names back from the drop-in, in order |
| `KernelModules.KernelModuleResource.CheckNode` | internal/resource/kmod.go:26-57 | the status from missing modules and the drop-in |
| `KernelModules.KernelModuleResource.CheckIff` | internal/resource/kmod.go:26-57 | each status, said of the lines of /proc/modules and the drop-in's text |
| `KernelModules.KernelModuleResource.ApplyNode` | internal/resource/kmod.go:59-81 | loads what was missing at the start, in order, then the drop-in, stopping at the first failure |
| `KernelModules.KernelModuleResource.LoadsWhatIsMissing` | internal/resource/kmod.go:65-72 | modprobe is run on exactly the wanted modules that were not listed, in order |
| `KernelModules.KernelModuleResource.SucceedsIff` | internal/resource/kmod.go:59-81 | exactly when Apply succeeds |
| `KernelModules.KernelModuleResource.WantedInOrder` | internal/resource/kmod.go:83-87 | the names are taken in ascending order |
| `KernelModules.KernelModuleResource.LoadAllEffect` | internal/resource/kmod.go:65-72 | loading only adds to the list, keeps existing sysctl texts and adds the exposed ones |
| `KernelModules.KernelModuleResource.SettlesIff` | internal/resource/kmod.go:36-47 | a successful Apply settles the resource iff every module found missing is one that modprobe lists under that name |
| `KernelModules.KernelModuleResource.NeverSettles` | internal/resource/kmod.go:36-57 | a wanted module that is not listed and never gets listed is drift after any number of Applies |
| `KernelModules.BuiltInIsUnnameable` | internal/resource/kmod.go:100-118 | a kernel whose modprobe leaves the list alone never lists a module |
| `KernelModules.DashIsUnnameable` | internal/resource/kmod.go:100-118 | a kernel that lists names with underscores never lists one with a dash, and always lists one without |
| `SwapMount.ActiveSwapDevices` | internal/resource/swap.go:76-97 | the first fields below the header line |
| `SwapMount.SwapCheckNode` | internal/resource/swap.go:24-50 | the status from devices, fstab and units |
| `SwapMount.SwapCheckIff` | internal/resource/swap.go:24-50 | each status, said of the lines of /proc/swaps, fstab and the unit listing |
| `SwapMount.SwapApplyNode` | internal/resource/swap.go:52-74 | swapoff, fstab and masking in order, stopping at the first failure |
| `SwapMount.SwapApplied` | internal/resource/swap.go:52-74 | what a successful Apply has done to the swap table and fstab |
| `SwapMount.SwapSucceedsIff` | internal/resource/swap.go:52-74 | exactly when Apply succeeds |
| `SwapMount.SwapSettlesIff` | internal/resource/swap.go:52-74 | a successful Apply is followed by a clean Check iff swapoff left no device and no unit listed after it is one that masking leaves listed |
| `SwapMount.StubbornUnitNeverSettles` | internal/resource/swap.go:24-50 | a unit that neither swapoff nor masking takes off the listing is drift after any number of Applies |
| `SwapMount.StillListedNeverSettles` | internal/resource/swap.go:67-73 | with a systemd whose listing stays as it is, that happens to every unit on every host that can list it |
| `SwapMount.SwapoffAloneSettles` | internal/resource/swap.go:57-61 | with one whose listing swapoff empties, swap settles although masking changes nothing |
| `SwapMount.SwapFrame` | internal/resource/swap.go:52-74 | whatever the outcome, swap touches nothing but the swap table, the unit listing, fstab and its backup |
| `HostHistory.CommentIsEdit` | internal/resource/swap.go:138-170 | swap's handling of fstab on any host is one step of the edit history, with that host's faults |
| `SwapMount.CommentFstabNode` | internal/resource/swap.go:138-170 | absent, unreadable, nothing to do, or backup then write |
| `SwapMount.ActiveSwapUnits` | internal/resource/swap.go:102-116 | the listed units; none when the listing fails |
| `SwapMount.IsMounted` | internal/resource/mount.go:83-98 | true iff a line has the path and type in place |
| `SwapMount.MountCheckNode` | internal/resource/mount.go:30-54 | the status from the mount table and fstab |
| `SwapMount.MountCheckIff` | internal/resource/mount.go:30-54 | each status, said of the fields of the lines of /proc/mounts and fstab |
| `SwapMount.MountApplyNode` | internal/resource/mount.go:56-81 | mount if needed, then persist if asked, stopping at the first failure |
| `SwapMount.MountApplied` | internal/resource/mount.go:56-81 | what a successful Apply has done: the mount with device, path, type and options unless mounted, and the entry |
| `SwapMount.MountSucceedsIff` | internal/resource/mount.go:56-124 | exactly when Apply succeeds |
| `SwapMount.MountCommandFails` | internal/resource/mount.go:66-74 | the command that is run, argument by argument, and that its failure leaves the host as it is |
| `SwapMount.MountSettles` | internal/resource/mount.go:56-81 | a successful Apply is followed by a clean Check |
| `SwapMount.PersistFstabNode` | internal/resource/mount.go:100-124 | unreadable, entry present, or backup then write |
| `HostHistory.PersistIsEdit` | internal/resource/mount.go:100-124 | so is a mount's |
| `CpuMask.CpumaskAll` | internal/resource/nictuning.go:238-260 | the word loop, in-place reversal and join give the specified mask |
| `CpuMask.ReverseWords` | internal/resource/nictuning.go:256-258 | the swapping loop reverses the array |
| `CpuMask.MaskRoundTrip` | internal/resource/nictuning.go:238-293 | for every n, parsing the printed mask gives 0, 1, ..., max(n, 1) - 1 |
| `CpuMask.MaskAllDenotes` | internal/resource/nictuning.go:234-260 | the printed mask names exactly the low max(n, 1) CPUs |
| `CpuMask.RenderedDenotes` | internal/resource/nictuning.go:262-293 | the mask of the low CPUs names exactly them however many words and however many digits a word it is written with |
| `CpuMask.ParseCPUMaskBits` | internal/resource/nictuning.go:276-293 | the nested loops and sort compute the specified list |
| `CpuMask.ParseHex32Iff` | internal/resource/nictuning.go:279-283 | a word is understood iff it has hexadecimal digits only, in either case, and fits in 32 bits |
| `CpuMask.ParseBitsDenotes` | internal/resource/nictuning.go:273-293 | for every text the list is strictly increasing and holds exactly the CPUs the mask names |
| `CpuMask.CPUMasksEqual` | internal/resource/nictuning.go:269-271 | true iff the two texts name the same CPUs |
| `CpuMask.EqualBitsIffSameCPUs` | internal/resource/nictuning.go:262-271 | equality of parsed lists is equality of CPU sets |
| `CpuMask.PaddingIsInvisible` | internal/resource/nictuning.go:262-268 | any number of all-zero words in front, and a newline, never change the CPUs named |
| `NicTuning.ParseEthtoolRingParams` | internal/resource/nictuning.go:99-132 | the section-tracking loop computes the specified parameters |
| `NicTuning.ParseReportText` | internal/resource/nictuning.go:97-132 | parsing inverts the driver's report, n/a included, whatever other lines surround the four that count |
| `NicTuning.OtherLinesAreInert` | internal/resource/nictuning.go:99-132 | mini and jumbo rings, titles and blanks are such other lines |
| `NicTuning.ApplyRingBufferMax` | internal/resource/nictuning.go:153-180 | the request issued and its effect, or none when the query is unsupported |
| `NicTuning.RingsConverge` | internal/resource/nictuning.go:134-180 | requests are the advertised maximum; a successful step leaves no drift, lowers nothing and is not repeated |
| `NicTuning.RingRequestIff` | internal/resource/nictuning.go:134-180 | ethtool is asked for the maximum of a ring iff the ring is short of it |
| `NicTuning.RingsSet` | internal/resource/nictuning.go:153-180 | a short ring gets its maximum, another keeps its size |
| `NicTuning.RingsSucceedIff` | internal/resource/nictuning.go:153-180 | exactly when the step succeeds |
| `NicTuning.QueueMaskDrift` | internal/resource/nictuning.go:187-205 | exactly the readable queues whose mask names other CPUs |
| `NicTuning.ApplyQueueMask` | internal/resource/nictuning.go:207-232 | the sweep over the queues, skipping absent files, stopping at a failing write |
| `NicTuning.MasksConverge` | internal/resource/nictuning.go:207-232 | with any read-back that names the same CPUs, readable queues end naming exactly CPUs 0 to n - 1; absent stay absent; right ones are not written |
| `NicTuning.SecondSweepIsQuiet` | internal/resource/nictuning.go:215-218 | after a completed sweep a second one completes too and leaves every queue as it is |
| `NicTuning.SweepExact` | internal/resource/nictuning.go:207-232 | a completed sweep leaves absent queues and right ones, and writes all the others |
| `NicTuning.MasksSucceedIff` | internal/resource/nictuning.go:207-232 | a sweep completes iff every queue can be left alone or written |
| `NicTuning.RenderingEchoKeeps` | internal/resource/nictuning.go:262-268 | a kernel that reads a mask back with zero words in front, or leading zeros added or dropped, names the same CPUs |
| `NicTuning.FourCPUs` | internal/resource/nictuning_test.go:36-38 | one digit and two words of eight are such read-backs for four CPUs |
| `NicTuning.NICResource.CheckNode` | internal/resource/nictuning.go:33-66 | the status from rings and queues |
| `NicTuning.NICResource.CheckIff` | internal/resource/nictuning.go:33-66 | each status, said of ring sizes and of the CPUs the queues name |
| `NicTuning.NICResource.ApplyNode` | internal/resource/nictuning.go:68-89 | rings, then receive, then transmit queues, stopping at the first failure |
| `NicTuning.NICResource.ApplyLeaves` | internal/resource/nictuning.go:68-89 | what is not asked for is left alone |
| `NicTuning.NICResource.ApplyConverges` | internal/resource/nictuning.go:33-89 | a successful Apply leaves neither ring nor readable-queue drift |
| `IrqAffinity.EnaIRQs` | internal/resource/irqaffinity.go:106-141 | the loop, sort and printing compute the specified list |
| `IrqAffinity.IRQsAre` | internal/resource/irqaffinity.go:113-141 | the list is ascending and holds exactly the numbers that start, a colon aside, a line whose last field starts with the interface and a dash |
| `IrqAffinity.LineOrderIsIrrelevant` | internal/resource/irqaffinity.go:113-141 | permuting the lines of the file changes nothing |
| `IrqAffinity.DesiredAffinity` | internal/resource/irqaffinity.go:91-101 | the loop gives the round-robin assignment |
| `IrqAffinity.DesiredLast` | internal/resource/irqaffinity.go:91-101 | an IRQ goes to its (last) position modulo the CPU count |
| `IrqAffinity.SpreadIsBalanced` | internal/resource/irqaffinity.go:88-101 | with distinct IRQs each gets one CPU in range and any two CPUs' loads differ by at most one |
| `IrqAffinity.IRQAffinityResource.CheckNode` | internal/resource/irqaffinity.go:31-62 | the status, skipping unreadable IRQs |
| `IrqAffinity.IRQAffinityResource.CheckIff` | internal/resource/irqaffinity.go:31-62 | each status, said of the affinity files of the queues |
| `IrqAffinity.IRQAffinityResource.ApplyNode` | internal/resource/irqaffinity.go:64-82 | the sweep, stopping at a failing write |
| `IrqAffinity.IRQAffinityResource.ApplyConverges` | internal/resource/irqaffinity.go:31-82 | a successful Apply leaves no drift and touches no other IRQ, nor one that was right |
| `IrqAffinity.IRQAffinityResource.SweepSucceedsIff` | internal/resource/irqaffinity.go:64-82 | exactly when the sweep succeeds |
| `IoScheduler.ReadScheduler` | internal/resource/ioscheduler.go:108-123 | the loop gives the active name and all offered |
| `IoScheduler.ParseRender` | internal/resource/ioscheduler.go:106-123 | reading inverts the kernel's bracketed rendering |
| `IoScheduler.CheckNode` | internal/resource/ioscheduler.go:31-63 | drift iff a readable listed device offers the scheduler and runs another |
| `IoScheduler.CheckIff` | internal/resource/ioscheduler.go:31-63 | each status, said of what the devices offer and run |
| `IoScheduler.ApplyNode` | internal/resource/ioscheduler.go:65-83 | the sweep over the devices, stopping at a failing write |
| `IoScheduler.ApplyConverges` | internal/resource/ioscheduler.go:31-83 | readable listed devices offering the scheduler run it, every other device and every one that ran it is untouched, and Check is clean |
| `IoScheduler.SweepSucceedsIff` | internal/resource/ioscheduler.go:65-83 | exactly when the sweep succeeds |
| `CpuGovernor.CheckNode` | internal/resource/cpugovernor.go:25-53 | the status from the readable governor files |
| `CpuGovernor.CheckIff` | internal/resource/cpugovernor.go:25-53 | each status, said of the trimmed texts of the files |
| `CpuGovernor.ApplyNode` | internal/resource/cpugovernor.go:55-73 | the sweep over the files, stopping at a failing write |
| `CpuGovernor.SweepSucceedsIff` | internal/resource/cpugovernor.go:55-73 | exactly when the sweep succeeds |
| `CpuGovernor.SettlesIff` | internal/resource/cpugovernor.go:25-73 | a successful Apply is followed by a clean Check iff the governor has no white space around it or no file is readable; no other file is touched |
| `CpuGovernor.NeverSettles` | internal/resource/cpugovernor.go:44 | a governor with white space around it is drift after any number of Applies, on any host with a readable file |
| `CpuGovernor.PaddedIsNotTrimmed` | internal/resource/cpugovernor.go:44 | every name that starts or ends with white space is such a governor |
| `Facts.Gatherer.Gather` | internal/facts/facts.go:93-142 | the facts and the cache left, for every combination of answers and failures |
| `Facts.GatheredFacts` | internal/facts/facts.go:93-142 | field by field, what a run reports when IMDS fails, when the API fails, when it answers, and on a hit: identity, family, CPUs, memory, bandwidth, NVMe, distro and kernel |
| `Facts.FamilyIsBeforeDot` | internal/facts/facts.go:146-149 | the family is what precedes the first dot of the instance type |
| `Facts.HitsIff` | internal/facts/cache.go:27-43 | exactly when a cached answer is used |
| `Facts.CacheLeft` | internal/facts/cache.go:45-57 | what each run leaves in the cache |
| `Facts.EntryIsLastAnswer` | internal/facts/cache.go:27-57 | over every history a valid entry is, unaltered, the API answer of the last run that wrote the cache |
| `Facts.LastWriterIsLast` | internal/facts/cache.go:45-57 | no later run wrote the cache than the one the entry is traced to |
| `Facts.NoDegradedEntry` | internal/facts/facts.go:115-124 | no degraded fact is ever cached |
| `Facts.HitAgreesWithUncached` | internal/facts/facts.go:107-112 | with fixed answers a hit is what this run would learn uncached, with fresh distro and kernel, and no older than a positive ttl |
| `Facts.CacheIsTransparent` | internal/facts/facts.go:93-142 | with fixed answers every run returns its uncached result, or that of an answering API |
| `Facts.ProvenanceIsHonest` | internal/facts/facts.go:88-142 | the source and the warnings tell exactly how the facts were obtained: which failure goes with which warning, both ways; distro and kernel are always fresh |
| `Facts.StaleUntilRefresh` | internal/facts/cache.go:22-31 | without a ttl cached facts that can be read stand until a refresh, whatever the API would say |
| `Profile.Build` | internal/profile/merge.go:35-41 | the mutating steps give the layered desired state |
| `Profile.NodeProfile.ApplyScaling` | internal/profile/scaling.go:14-67 | the thirteen assignments, one by one, leave every scaled key with its fields over what was there, and touch nothing else |
| `Profile.NodeProfile.ApplyCiliumPrereqs` | internal/profile/cilium.go:19-49 | the mount, and modules and sysctls by tunnel mode and iptables use |
| `Profile.NodeProfile.ApplyOverrides` | internal/profile/merge.go:43-74 | each set override replaces, each unset one keeps the computed value |
| `Profile.OverrideWinsIff` | internal/profile/merge.go:44-57 | an override is what the node gets, except where a hugepage count beats it |
| `Profile.BuiltSettings` | internal/profile/merge.go:43-74 | everything but the sysctls: what the operator set, and otherwise the defaults |
| `Profile.BuiltModules` | internal/profile/cilium.go:34-48 | the modules of a built profile, by tunnel mode and iptables use |
| `Profile.BuiltKeys` | internal/profile/base.go:26-65 | exactly the keys of a built profile |
| `Profile.FixedReaches` | internal/profile/base.go:26-65 | each fixed sysctl left alone reaches the profile with its value |
| `Profile.OptionalKeys` | internal/profile/merge.go:53-57 | the hugepage count, and both bridge sysctls as 1 unless overridden |
| `Profile.ThresholdsInOrder` | internal/profile/scaling.go:61-66 | for all facts, wrap-around included, the built thresholds are strictly ordered and in range |
| `Profile.ScaledInRange` | internal/profile/scaling.go:27-66 | each of the thirteen scaled keys that is not overridden reaches the built profile as its leading fields and the scaled number, within its documented range, wrap-around included |
| `Profile.ScaledExactly` | internal/profile/scaling.go:14-67 | while the products fit, the number each scaled key gets in the built profile, with the rates written out |
| `Profile.FileMaxExact` | internal/profile/scaling.go:25-28 | over reals fs.file-max is the clamp of memory in MiB times 128 |
| `Profile.ScalingMonotone` | internal/profile/scaling.go:14-67 | of two built profiles that leave a scaled key alone, the larger instance's number is never the smaller, while the products fit in 64 bits |
| `Profile.WrapBreaksMonotonicity` | internal/profile/scaling.go:61 | beyond that, with values the 32-bit fields of the API can hold, a wrapped product gives the larger instance the smaller neighbour table |
| `Profile.Clamp` | internal/profile/scaling.go:69-77 | the value itself within the bounds, and outside them the bound on its side |

## Left out

- Cgroup detection: a single branch; the resource is in the list, with its status an input.
- Units that masking leaves listed: whole runs that include swap assume there is none once swap is off (`SwapMount.UnitsLeave`); `SwapMount.SwapSettlesIff` is about the rest.
- Directory scans (interface choice, queue, governor and NVMe device listing): the lists are inputs.
- The metadata and EC2 clients, JSON and YAML encoding, flags and report text; a cache file is valid, garbage or absent, and warnings are tags instead of sentences.
- Byte strings that are not UTF-8, the scanner's 64 KiB line limit and carriage returns it strips; only field-wise parsing follows, which ignores the latter.
- File modes, parent directories and symbolic links.
- Rounding of floating point: memory and bandwidth are reals; a conversion that does not fit gives some arbitrary int64.
- `CpuMask.CpumaskAll`: integers are unbounded, so the overflow of n + 31 near the largest int64 is not modelled.
- `AtomicFile.FileSystem.WriteFileIfChanged`: the temporary name is an input that is free, as the system guarantees.
- `NicTuning.ApplyRingBufferMax`: ethtool sets both rings or neither.
