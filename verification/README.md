# Verified model of the lab orchestrator

The repository brings up, tears down and watches a lab of libvirt guests. This project models
the parts of it whose correctness does not show from one function, and proves what they
promise. Each module follows one component of the repository:

- `Text`, `CorosyncSyntax`, `CorosyncTree`, `CorosyncEdit`, `CorosyncConfig`, `CorosyncLocate`,
  `CorosyncEditor`, `CorosyncLaws`, `CorosyncFrame`, `CorosyncAnswer`: the corosync.conf editor, on characters.
  A text is read as a tree (`Doc`: rows and blocks); the parser's fold is proved to read exactly
  that tree; each in-place edit of the line list is proved to be an edit of the tree; the loop
  is proved to converge in exactly one pass more than there are missing edits. `CorosyncLaws`
  and `CorosyncFrame` prove idempotence, that the last token wins, and what stays as it was;
  `CorosyncAnswer` says what the edited file holds, on its lines alone.
- `FileTree`, `MigrationRun`, `MigrationPlan`, `Migration`, `MigrationAnswer`, `Migrate`: the build/ migration over
  a file tree as a map from paths to nodes. A plan is characterised path by path, shown to run to
  its end, and shown to lose nothing, exactly when no rename lands on a different dangling link
  and no file stands where a bucket belongs.
- `BoxNames`, `BoxPool`, `BoxGc`: base-image names, garbage collection of the storage pool, and
  `box gc --unreferenced`. The pool is a map from volume names to allocations and backings.
- `Topology`, `Versions`, `BoxCommand`: stack membership, the OS catalog, which box a node boots,
  which boxes the catalog resolves and which a host builds; the unreferenced pass against the
  catalog.
- `Destroy`, `LabRun`, `LabHost`, `LabLimits`: the destroy planner against the commands its steps
  run; the lab as a state machine of bootstraps, teardowns that fail part-way, catalog edits and
  guests powered or lost; the two commands as methods proved to take exactly its steps; and the
  topologies on which what holds over every run does not.
- `Orchestrator`: the step loop with bounded retry, proved against the event log it must produce.
- `BootPlan`, `TaskTiming`: the boot order and its batches, and the reader of ansible timings.
- `Sampler`, `SshMux`: failure bookkeeping of the perf sampler, and the fallback from multiplexed
  to plain ssh as an interleaving of probes.
- `Requester`: the round-trip histogram and the reconnect loop of the MQ requester.
- `Dns`, `Bind`: forward and reverse records, and which infra node masters each zone.

What the outside world does enters as parameters: exit codes and durations of commands
(`World`), answers of MQ calls, volumes that vanish between listing and reading, links that
resolve (`live`), how far a bring-up got before a failure (`progress`), how many destroy commands
ran before one failed (`ok`).

Where a promise of the repository's own documentation does not hold for every input, the code is
followed, the exact condition is proved, and an input on which it fails is given:

- A migration that reports success is lossless if and only if no legacy entry is renamed onto a
  dangling link that differs from it, and no file stands where a bucket directory is needed
  (`Migrate.LosslessIff`; `Migrate.DanglingLinkIsLost`, `Migrate.FileObstructs`): `exists()`
  follows links, so such a link counts as absent.
- Migration is called idempotent. A second one plans nothing if and only if no link turned in
  between (`Migrate.SecondMigrate`; `Migrate.RevivedLinkMoves`).
- Garbage collection is called idempotent. A second collection deletes nothing if and only if
  every image the first one skipped still backs a volume that stayed (`BoxPool.RepeatIsIdle`;
  `BoxPool.ChainTakesTwoPasses`).
- A node's box is resolvable if and only if its role is shared or some stack using the role
  supports its OS (`Versions.NodeBoxResolvableIff`; `LabLimits.DroppedOs`).
- A stack's instance record is to say what its guests were built on. Every run keeps it so if and
  only if no stack finds another stack's guest in the commons (`LabLimits.PinnedIff`;
  `LabLimits.OwnedCommons`).
- A live stack without a record is taken to be an anomaly, and refused. No run reaches one if and
  only if no stack brings up a member of another (`LabLimits.RecordedIff`;
  `LabLimits.ListedTwice`).
- A stack without a cluster group is taken to have no real VMs. No run releases huge pages under a
  live guest if and only if every stack member is counted: one of the VMs of the stack being torn
  down, or a member of another stack with a cluster group (`LabLimits.PagesIff`;
  `LabLimits.UncountedStack`).
- CNAME exclusivity holds if and only if no host is named like another host's interface or like a
  VIP (`Dns.CnameExclusiveIff`; `Dns.NameClash`).

`dafny verify dfyconfig.toml` verifies the project.

## Model

| member | source | states |
|---|---|---|
| CorosyncSyntax.OpenIffPattern | ansible/roles/rdqm-ha/library/rdqm_corosync_heartbeat.py:52 | the computed section opening matches exactly the texts of the pattern, with a unique name |
| CorosyncSyntax.CloseIffPattern | ansible/roles/rdqm-ha/library/rdqm_corosync_heartbeat.py:53 | a line closes a section exactly when it is a brace in white space |
| CorosyncSyntax.KeyIffPattern | ansible/roles/rdqm-ha/library/rdqm_corosync_heartbeat.py:54 | key and value are the unique ones of the pattern, the lazy value trimmed at its end |
| CorosyncSyntax.KeyLineRead | ansible/roles/rdqm-ha/library/rdqm_corosync_heartbeat.py:134-136 | a written key line reads back as that key and value |
| CorosyncSyntax.OpenLineRead | ansible/roles/rdqm-ha/library/rdqm_corosync_heartbeat.py:181 | a written opening line reads back as that section |
| CorosyncSyntax.SplitRender | ansible/roles/rdqm-ha/library/rdqm_corosync_heartbeat.py:198-203 | splitting the joined text gives back the lines, when no line holds a break |
| CorosyncSyntax.SplitAtBreak | ansible/roles/rdqm-ha/library/rdqm_corosync_heartbeat.py:198 | a text is cut at each of the nine line breaks of `splitlines`, a carriage return before a line feed counting as one with it |
| CorosyncSyntax.RenderMore | ansible/roles/rdqm-ha/library/rdqm_corosync_heartbeat.py:203 | the lines are joined by a line feed each, the last included |
| CorosyncTree.TreeRoundTrip | ansible/roles/rdqm-ha/library/rdqm_corosync_heartbeat.py:83-110 | a well-formed tree is what its own lines read as |
| CorosyncTree.TreeLines | ansible/roles/rdqm-ha/library/rdqm_corosync_heartbeat.py:83-110 | the tree of a list of lines is well formed and flattens to exactly those lines |
| CorosyncTree.ScanMatchesTree | ansible/roles/rdqm-ha/library/rdqm_corosync_heartbeat.py:83-110 | the parser succeeds exactly on balanced texts, and then its sections, spans, first-wins keys and children are those of the tree |
| CorosyncEdit.NextKeysEffect | ansible/roles/rdqm-ha/library/rdqm_corosync_heartbeat.py:186-188 | setting the next wrong key fixes exactly one and leaves the settled body as it was |
| CorosyncEdit.NextLinkEffect | ansible/roles/rdqm-ha/library/rdqm_corosync_heartbeat.py:176-188 | one edit of a link lowers its cost by one (4 without an interface, else its wrong keys) and touches no other link |
| CorosyncEdit.NextEffect | ansible/roles/rdqm-ha/library/rdqm_corosync_heartbeat.py:170-189 | each edit lowers the measure by exactly one and never undoes an earlier one; no edit is left exactly when the measure is 0 |
| CorosyncEdit.TodoBound | ansible/roles/rdqm-ha/library/rdqm_corosync_heartbeat.py:199-201 | the measure is at most 1 for the token and 4 for each link |
| CorosyncConfig.NextFileEffect | ansible/roles/rdqm-ha/library/rdqm_corosync_heartbeat.py:170-189 | on a whole file, an edit keeps one totem, the link set and the final configuration |
| CorosyncConfig.MissingBound | ansible/roles/rdqm-ha/library/rdqm_corosync_heartbeat.py:199-201 | the passes needed are at most `2 + 4 * links` |
| CorosyncConfig.MissingBoundTight | ansible/roles/rdqm-ha/library/rdqm_corosync_heartbeat.py:199-201 | an empty totem section needs all of them |
| CorosyncConfig.ConfigureEffect | ansible/roles/rdqm-ha/library/rdqm_corosync_heartbeat.py:192-204 | the configured file misses nothing, names the same links, and is a fixed point |
| CorosyncLocate.FindChildIsIface | ansible/roles/rdqm-ha/library/rdqm_corosync_heartbeat.py:159-167 | the section found for a link is the tree's first matching interface, `linknumber` defaulting to 0 |
| CorosyncLocate.TotemSectionsOf | ansible/roles/rdqm-ha/library/rdqm_corosync_heartbeat.py:152-156 | the parsed sections hold as many top-level totems as the tree |
| CorosyncLocate.SectionRingsOf | ansible/roles/rdqm-ha/library/rdqm_corosync_heartbeat.py:140-149 | the ring numbers of the parsed node sections are those of the tree |
| CorosyncAnswer.RingNumberIff | ansible/roles/rdqm-ha/library/rdqm_corosync_heartbeat.py:55 | a key is a ring address exactly when it is `ring`, digits, and `_addr`, and the ring number is what the digits read as |
| CorosyncAnswer.LinksIff | ansible/roles/rdqm-ha/library/rdqm_corosync_heartbeat.py:140-149 | a link is a heartbeat link exactly when a node of a top-level nodelist has a line with an address on that ring, or it is link 0 and there is no such line for any ring |
| CorosyncAnswer.LookupIff | ansible/roles/rdqm-ha/library/rdqm_corosync_heartbeat.py:105-107 | the value of a key is the one on the first line of the body that sets it |
| CorosyncEditor.Parse | ansible/roles/rdqm-ha/library/rdqm_corosync_heartbeat.py:83-110 | the loop with its stack computes the fold that reads the tree, and its errors |
| CorosyncEditor.HeartbeatLinks | ansible/roles/rdqm-ha/library/rdqm_corosync_heartbeat.py:140-149 | the sorted link numbers the nodelist names, or link 0 alone |
| CorosyncEditor.FindIndentInside | ansible/roles/rdqm-ha/library/rdqm_corosync_heartbeat.py:117-123 | the indent of the first inner line that is not blank |
| CorosyncEditor.FindInterface | ansible/roles/rdqm-ha/library/rdqm_corosync_heartbeat.py:159-167 | the first child interface with the link's number |
| CorosyncEditor.SetKeyIsPutKey | ansible/roles/rdqm-ha/library/rdqm_corosync_heartbeat.py:126-137 | rewriting or inserting a line in the list is setting the key in the tree, nothing else moving |
| CorosyncEditor.ConfEditor.SetKey | ansible/roles/rdqm-ha/library/rdqm_corosync_heartbeat.py:126-137 | whether and how the line list changes; `SetKeyIsPutKey` says that this is setting the key in the tree |
| CorosyncEditor.ConfEditor.EditLink | ansible/roles/rdqm-ha/library/rdqm_corosync_heartbeat.py:175-188 | one pass over a link makes the tree's next edit of it, or none |
| CorosyncEditor.ConfEditor.NextEdit | ansible/roles/rdqm-ha/library/rdqm_corosync_heartbeat.py:170-189 | the in-place pass makes the tree's next edit; an unsafe file is left as it was |
| CorosyncEditor.ConfEditor.Converge | ansible/roles/rdqm-ha/library/rdqm_corosync_heartbeat.py:198-204 | the loop ends with the configured file after exactly one pass more than there were missing edits |
| CorosyncEditor.ApplyHeartbeat | ansible/roles/rdqm-ha/library/rdqm_corosync_heartbeat.py:192-204 | the configured text or the reason it is unsafe, which `CorosyncAnswer.EveryLinkSet` and `RefusedIff` spell out; "did not converge" is unreachable for every text and token |
| CorosyncLaws.SettleTwice | ansible/roles/rdqm-ha/library/rdqm_corosync_heartbeat.py:126-137 | settling a totem body for two tokens in turn reads like settling it for the second |
| CorosyncLaws.LastTokenWins | ansible/roles/rdqm-ha/library/rdqm_corosync_heartbeat.py:192-204 | two tokens applied in turn give the same configuration as the last alone |
| CorosyncFrame.EvolvesLookup | ansible/roles/rdqm-ha/library/rdqm_corosync_heartbeat.py:126-137 | every key that is not being configured keeps its effective value |
| CorosyncFrame.EvolvesLines | ansible/roles/rdqm-ha/library/rdqm_corosync_heartbeat.py:126-137 | deleting the added lines gives the old lines back, rewritten ones in place with their indent |
| CorosyncFrame.OnlyHeartbeatLinesChange | ansible/roles/rdqm-ha/library/rdqm_corosync_heartbeat.py:170-204 | outside the totem body nothing changes; inside, only the first token line and the three values of the first interface of each heartbeat link are rewritten or added: at most `1 + 3 * links` rewritten and `1 + 6 * links` added lines |
| CorosyncFrame.OtherIfacesStay | ansible/roles/rdqm-ha/library/rdqm_corosync_heartbeat.py:159-189 | the interface found for a link that is no heartbeat link stays as it was, or stays missing |
| CorosyncFrame.ReadsBack | ansible/roles/rdqm-ha/library/rdqm_corosync_heartbeat.py:198-203 | the written text parses back to the configured tree |
| CorosyncFrame.NothingMissing | ansible/roles/rdqm-ha/library/rdqm_corosync_heartbeat.py:170-189 | no edit is left exactly when the token and every link's three values are in place |
| CorosyncFrame.HeartbeatInPlace | ansible/roles/rdqm-ha/library/rdqm_corosync_heartbeat.py:74-80 | the output parses, has one totem, the links of the input, and all derived values in the first matching interfaces |
| CorosyncAnswer.EveryLinkSet | ansible/roles/rdqm-ha/library/rdqm_corosync_heartbeat.py:74-80 | for every link the nodes have an address on, the first interface of that link in the one totem section has half the token as ping timeout, a twentieth as ping interval, and two as pong count; the token is in place, and the links are as before |
| CorosyncAnswer.RefusedIff | ansible/roles/rdqm-ha/library/rdqm_corosync_heartbeat.py:192-197 | the text is edited exactly when the token is between 3000 and 120000, the braces balance, and there is exactly one totem section |
| CorosyncAnswer.EmptyTotem | ansible/roles/rdqm-ha/library/rdqm_corosync_heartbeat.py:170-189 | the exact lines an empty totem section becomes, and their indents |
| CorosyncFrame.ConfiguredTwice | ansible/roles/rdqm-ha/library/rdqm_corosync_heartbeat.py:192-204 | a second run changes nothing, byte for byte |
| CorosyncFrame.LastTokenWinsOnTexts | ansible/roles/rdqm-ha/library/rdqm_corosync_heartbeat.py:192-204 | on texts, the last token wins line by line |
| FileTree.Moved | src/mqlab/buildenv.py:402 | a rename takes a whole subtree along, path by path |
| MigrationPlan.FateOf | src/mqlab/buildenv.py:325-337 | without a conflict, each path of a merge is pruned, dropped as a duplicate, or moved with a subtree |
| MigrationPlan.MovesApart | src/mqlab/buildenv.py:325-337 | no two moves of a merge lie within each other, at either end |
| MigrationPlan.CoversChildDir | src/mqlab/buildenv.py:330-331 | a recursive merge covers exactly the paths below that child, in post-order |
| Migration.CoversEverything | src/mqlab/buildenv.py:361-376 | visiting the fixed names and the DVD images covers every legacy path there is |
| MigrationAnswer.TableIff | src/mqlab/buildenv.py:261-281 | which fixed names belong to which bucket |
| MigrationAnswer.BelongsIff | src/mqlab/buildenv.py:286-288 | an entry is legacy, with its bucket, exactly when its name is in the table or ends in `-dvd.iso` |
| MigrationAnswer.ClashIff | src/mqlab/buildenv.py:325-337 | the conflicts are the entries that would land on something that differs |
| MigrationRun.MovesRun | src/mqlab/buildenv.py:399-402 | moves that do not interfere all run unless one is blocked or has something else than a directory above its destination, with a result known path by path |
| MigrationRun.UnlinksRun | src/mqlab/buildenv.py:403-404 | every unlink finds its file |
| MigrationRun.RmdirsRun | src/mqlab/buildenv.py:405-406 | in post-order every rmdir finds its directory empty |
| Migrate.PlannedReady | src/mqlab/buildenv.py:366-395 | each planned rename finds its source present and its target free but for a dangling link |
| Migrate.LeftInside | src/mqlab/buildenv.py:337 | after moves and unlinks, all that is left inside a pruned directory is itself pruned |
| Migrate.PlanRuns | src/mqlab/buildenv.py:399-406 | a plan runs to its end unless a directory would replace a link, or a file stands above a destination |
| Migrate.RunIsLossless | src/mqlab/buildenv.py:399-406 | every file under a legacy path ends at its bucket path with its bytes, no bucket file changes, and nothing else appears |
| Migrate.LosslessIff | src/mqlab/buildenv.py:371-373 | a run ends lossless if and only if no entry lands on a different dangling link and no file stands where a bucket directory is needed |
| Migrate.MigratedIff | src/mqlab/buildenv.py:361-376 | lossless said on names alone: every node below `build/<name>` stands below `build/<bucket>/<name>`, for the names of the table and every `<stem>-dvd.iso` |
| Migrate.LosesIff | src/mqlab/buildenv.py:371-373 | the condition of `LosslessIff`, said on names alone |
| Migrate.DanglingLinkIsLost | src/mqlab/buildenv.py:371-373 | a checkout with a plan, on which every plan runs to its end and loses such a link |
| Migrate.FileObstructs | src/mqlab/buildenv.py:399-402 | a checkout with a file in place of a bucket and with a plan, on which every plan's run fails |
| Migrate.SecondMigrate | src/mqlab/buildenv.py:348-396 | a second migration plans nothing, if and only if no link turned in between: no skipped legacy link came alive, and no link beside a stale vagrant directory went dangling |
| Migrate.SecondMigrateIsIdle | src/mqlab/buildenv.py:348-350 | with the same links resolving, a second migration plans nothing |
| Migrate.RevivedLinkMoves | src/mqlab/buildenv.py:367-373 | a checkout on which the second migration moves a link that resolves by then |
| Migrate.Migrator.PlanMerge | src/mqlab/buildenv.py:325-337 | the recursive planner appends lists that cover exactly what lies below its source |
| Migrate.Migrator.PlanEntries | src/mqlab/buildenv.py:361-376 | the top-level loop covers every legacy entry |
| Migrate.Migrator.Apply | src/mqlab/buildenv.py:399-406 | the three loops run the plan, or stop at the first failing operation |
| Migrate.Migrator.Migrate | src/mqlab/buildenv.py:348-396 | a conflict anywhere leaves the tree untouched, and arises exactly on a clash of names; after a run that is applied every legacy name, DVD images included, stands in its bucket with all its nodes, exactly under the stated condition |
| BoxNames.BoxNameInjective | src/mqlab/versions.py:103-105 | role and OS can be read back from a box name |
| BoxNames.GeneratedBoxName | src/mqlab/box.py:1221-1231 | the loop over roles finds exactly the names of the generated shape |
| BoxNames.BoxNameIsGenerated | src/mqlab/box.py:1221-1231 | every box the catalog can name is a candidate |
| BoxNames.ImagePattern | src/mqlab/box.py:889 | a volume name is an image exactly when it splits at the pattern, with a unique stem and timestamp |
| BoxPool.NewestExists | src/mqlab/box.py:1121-1122 | every stem with an image has a newest one |
| BoxPool.LexIff | src/mqlab/box.py:1111 | names with one timestamp are ordered by their first difference |
| BoxGc.KeepIff | src/mqlab/box.py:1107-1126 | an image is kept exactly when its stem is not dead and no image of the stem that counts was imported later: for a registered stem the registered version, for another the greatest timestamp, then the greater name |
| BoxPool.CollectKeepsBacking | src/mqlab/box.py:1127-1129 | a collection leaves no remaining volume without a backing it had |
| BoxPool.SecondPass | src/mqlab/box.py:1107-1133 | a second pass deletes exactly the skipped images that nothing backs onto any more |
| BoxPool.RepeatIsIdle | src/mqlab/box.py:1083-1089 | when repeating deletes nothing, both directions |
| BoxPool.RepeatIsIdleWithoutChains | src/mqlab/box.py:1083-1089 | repeating deletes nothing when no deleted image had a backing |
| BoxPool.ChainTakesTwoPasses | src/mqlab/box.py:1127-1129 | two stale images, one backing the other, need two passes |
| BoxPool.RepeatsSettle | src/mqlab/box.py:1083-1089 | repeating always comes to rest |
| BoxPool.ChainsSurvive | src/mqlab/box.py:1127-1129 | the whole backing chain of a volume in use survives any number of passes |
| BoxPool.BackingStaysClosed | src/mqlab/box.py:1077-1141 | over any sequence of collections and guests coming and going, every backing stays in the pool |
| BoxGc.ScanPool | src/mqlab/box.py:1056-1074 | one read: names, allocations, backings in use, and the volumes that vanished |
| BoxGc.BoxImages | src/mqlab/box.py:1040-1048 | every image lands in the list of its stem, once |
| BoxGc.SortAscending | src/mqlab/box.py:1111 | sorting keeps the images and puts them in strictly ascending order |
| BoxGc.LastIsNewest | src/mqlab/box.py:1111-1122 | the last sorted image is the stem's one newest |
| BoxGc.Host.CollectStem | src/mqlab/box.py:1110-1133 | of one stem, each image is kept, skipped or deleted as it should |
| BoxGc.Host.GcOrphanedImages | src/mqlab/box.py:1077-1141 | each image is in exactly one list: deleted exactly when it is not the current image of its stem and backs nothing, where the current image of an unregistered live stem has the greatest timestamp, and among equal ones the greatest name; freed is exactly the allocation the pool lost, and a dry run changes nothing |
| BoxGc.CacheNameReadsBack | src/mqlab/box.py:1196-1198 | a cache file reads back as the box it was written for |
| BoxGc.FatCacheIff | src/mqlab/box.py:1196-1198 | a file is the cache of a box exactly when it has one of six names |
| BoxGc.CachedAsIff | src/mqlab/box.py:1298-1303 | a cache file counts unless its box or its stem is a retired name |
| BoxGc.Host.CleanUnreferenced | src/mqlab/box.py:1260-1335 | candidates are split into removed, in use and resolvable, the rest is reported as foreign; where each removed or used box was found; exactly the removed ones lose registration and caches |
| BoxGc.Host.CollectUnreferenced | src/mqlab/cli.py:1514-1519 | exactly the unprotected candidates not in use are removed, and they have no image, registration or cache left; nothing foreign is touched |
| BoxCommand.GcUnreferenced | src/mqlab/cli.py:1505-1519 | with the protected names read off the catalog: a box is removed exactly when it is a candidate no selection resolves to and not in use, so no box a node boots is removed while each recorded OS is supported; refused, with the host unchanged, exactly when some selection has no box |
| Topology.GroupMembers | src/mqlab/stacks.py:228-250 | the nested loops give the hosts of the groups, each once, in the order in which they are first met |
| Topology.AllVmsOf | src/mqlab/phases.py:151-169 | effective members, then the commons not among them, without duplicates |
| Versions.TableLosesNothing | src/mqlab/versions.py:339-362 | de-duplicating by name loses no box |
| Versions.AllBoxes | src/mqlab/versions.py:339-362 | the table holds exactly the boxes of the selections the host can run |
| Versions.SelectsIff | src/mqlab/versions.py:339-362 | which OS of a role is selected: the one of infra, obs and san, the one of the MQ clients, and every supported OS the host can run for a stack role |
| Versions.StackRoles | src/mqlab/versions.py:404-419 | the stack-OS roles its nodes declare; an unknown role is refused |
| Versions.NodeBoxes | src/mqlab/versions.py:440-479 | it succeeds exactly when families agree and each node has one owner and a bake, and gives each node its box |
| Versions.NodeBootsIff | src/mqlab/versions.py:440-479 | the box of a node is the catalog box of its role and OS: the shared OS of a shared role, else that of the one stack whose members include it, which is its record or its default |
| Versions.NodeBoxResolvableIff | src/mqlab/box.py:1202-1218 | when a node's box is resolvable, both directions |
| LabLimits.DroppedOs | src/mqlab/versions.py:432-437 | a run after which a node's box is not resolvable: its record keeps an OS the catalog has dropped |
| Versions.NodeBoxesResolvable | src/mqlab/versions.py:440-479 | it is when each recorded OS is one its stack supports |
| Versions.ResolvableBoxNames | src/mqlab/box.py:1202-1218 | the host's fleet adds nothing to what the catalog resolves |
| Versions.BuildFleet | src/mqlab/box.py:160-183 | the fleet is the runnable RHEL base boxes and the boxes selected on this host |
| Versions.BoxesForBuild | src/mqlab/box.py:189-223 | it succeeds exactly when every covered stack may have its OS and all its boxes exist; the names are exactly those of the shared roles and the covered stacks, all in the host's fleet; a stack is covered by its default when the host can run it and no OS is named, else by a named OS of its family |
| Destroy.PlanDestroy | src/mqlab/cli.py:1715-1733 | a guest is forced off exactly when it is defined in any state but `shut off`, undefined exactly when it is defined, and forgotten exactly when it has a machine directory; `PlanRuns`, `ReplanIsEmpty` and `EveryStepIsSafe` say what running the plan does |
| Destroy.PlanRuns | src/mqlab/cli.py:1715-1733 | for every state map the steps all run and leave the listed guests absent with their directories gone, and no other guest changed |
| Destroy.ReplanIsEmpty | src/mqlab/cli.py:1710-1714 | planning again yields no step |
| Destroy.EveryStepIsSafe | src/mqlab/lifecycle.py:29-36 | at every prefix the next step never undefines a live guest nor forces off one that is not |
| LabRun.BootstrapPins | src/mqlab/cli.py:2760-2784 | a bootstrap, stopped anywhere, keeps every stack guest pinned to its record |
| LabRun.TeardownPins | src/mqlab/cli.py:3322-3334 | a teardown, stopped anywhere, does too |
| LabRun.AlwaysPinned | src/mqlab/instances.py:126-148 | so does every run from an empty lab, if no stack finds another's guest in the commons |
| LabRun.StackRefIsBuiltOs | src/mqlab/versions.py:432-437 | in every run the OS a stack is taken to run is the one its guests were built on |
| LabRun.AlwaysRecorded | src/mqlab/instances.py:151-168 | when no stack brings up a member of another, every stack with a defined member has a record, in every run |
| LabRun.GateNeverFires | src/mqlab/cli.py:2736-2743 | so a live stack without a record, and the refusal of one, cannot arise |
| LabRun.GrantDecides | src/mqlab/cli.py:2747-2784 | a bring-up with a named OS is granted exactly when that OS is supported and runnable and equals the record, if there is one, or no member is live; without a build file a recorded stack is granted its record; a request that names none asks for the default |
| LabRun.BootedIff | src/mqlab/phases.py:353-395 | guest by guest, what a bring-up leaves: which directories are kept, and which box a new guest runs |
| LabLimits.PinnedIff | src/mqlab/phases.py:151-169 | every run keeps every stack guest pinned if and only if no stack finds another's guest in the commons, on a topology that renders at all |
| LabLimits.CommonsGuestUnpins | src/mqlab/phases.py:151-169 | otherwise the other stack's first bring-up defines the guest with no record of its own stack |
| LabLimits.OwnedCommons | src/mqlab/phases.py:151-169 | such a topology |
| LabLimits.RecordedIff | src/mqlab/cli.py:2736-2743 | every run keeps a record for every stack with a defined member, and no run meets the refusal of a live stack without one, if and only if no stack brings up a member of another, on a topology that renders at all |
| LabLimits.SharedMemberRefused | src/mqlab/cli.py:2736-2743 | otherwise one bring-up leaves the other stack live without a record, and its own bring-up is refused |
| LabLimits.ListedTwice | src/mqlab/versions.py:440-479 | such a topology: two stacks list one shared-role node |
| LabRun.RecordsAreStable | src/mqlab/cli.py:3331-3334 | a record changes only by a completed teardown, and then no member is left |
| LabRun.TeardownEffect | src/mqlab/cli.py:3285-3330 | what a teardown stopped part-way, and a whole one, leave |
| LabRun.TeardownStepsAreSafe | src/mqlab/cli.py:3285-3330 | the safety of every destroy step, members and commons together |
| LabRun.CommonsOutliveOthers | src/mqlab/cli.py:3236-3258 | without the flag, commons are untouched while another counted stack is live |
| LabRun.PagesFallWhenIdle | src/mqlab/cli.py:3335-3340 | in every run huge pages fall only when no stack or commons guest is live, if every member is counted |
| LabLimits.PagesIff | src/mqlab/cli.py:3250-3257 | no run releases huge pages under a live guest if and only if every member that is a node is counted by every teardown, on a topology that renders at all |
| LabLimits.OverlookedGuest | src/mqlab/cli.py:3335-3340 | otherwise a run reaches a teardown that releases the pages while the overlooked guest is live |
| LabLimits.UncountedStack | src/mqlab/cli.py:3236-3258 | such a topology: the stack of the node has no cluster group |
| LabHost.Host.ReconcileInstance | src/mqlab/cli.py:2747-2784 | the record gate decides as `GrantDecides` spells out, and pins exactly the OS it grants |
| LabHost.Host.Bootstrap | src/mqlab/cli.py:3030-3178 | a bootstrap takes exactly the state machine's step; it decides as `GrantDecides` spells out, and records the OS it grants |
| LabHost.Host.BringUp | src/mqlab/phases.py:353-395 | stale machine directories go first, and each guest boots the box it remembers or is given, guest by guest as `BootedIff` spells out |
| LabHost.Host.AnyOtherStackUp | src/mqlab/cli.py:3236-3258 | the reference count |
| LabHost.Host.Teardown | src/mqlab/cli.py:3261-3353 | a teardown takes exactly the state machine's step, and is done exactly when all its commands ran; then exactly the hosts of the stack's groups are gone, and those of the commons too when they are asked for or every other counted stack is idle, and the pages fall only in that case |
| Orchestrator.Orchestrator.RunStepWithRetry | src/mqlab/orchestrator.py:107-150 | the loop produces the step's log |
| Orchestrator.Orchestrator.RunSteps | src/mqlab/orchestrator.py:153-205 | the loop produces the run's log, lawful at every event, and ends with the record of the first exhausted step or of the last one |
| Orchestrator.StepLogShape | src/mqlab/orchestrator.py:107-150 | one step runs between once and its attempts, only the last try may succeed, and its record is exact |
| Orchestrator.EveryRun | src/mqlab/orchestrator.py:172-205 | steps start in order, each exactly after a success, nothing follows an exhausted step, each started step is recorded once |
| Orchestrator.RunIsLawful | src/mqlab/orchestrator.py:107-205 | what follows each event of a run: after a try the record with its own duration, or a wait of base times back-off power, capped, and the next try; after a success the pause of step mode and the next step; after a failure nothing |
| Orchestrator.WaitsRise | src/mqlab/orchestrator.py:57-59 | with a back-off factor of at least one no wait is shorter than the one before |
| Orchestrator.TotalSleep | src/mqlab/orchestrator.py:57-59 | total sleep is at most the sum of `(attempts - 1) * max_delay` |
| TaskTiming.BannerIff | src/mqlab/perfrun.py:100 | a banner line and its unique name |
| TaskTiming.TimingIff | src/mqlab/perfrun.py:103-105 | a line is a timing line exactly when it has the pattern, and gives its parenthesised duration |
| TaskTiming.KindIff | src/mqlab/perfrun.py:100-150 | what each line says, in full: banner, timing, `ok` or `changed`, `fatal`, or none of them |
| TaskTiming.AnsibleTaskOutcomes | src/mqlab/perfrun.py:122-150 | the reader gives the first started run of each named task, its duration taken from the next timing line; at most one task is left unfinished |
| TaskTiming.OneUnfinished | src/mqlab/perfrun.py:122-150 | at most one outcome is unfinished |
| TaskTiming.FinishedStays | src/mqlab/perfrun.py:122-150 | appending lines never changes a finished outcome |
| BootPlan.BootOrder | src/mqlab/phases.py:176-199 | the boot order is a stable permutation of the stack's VMs with the infra hosts first |
| BootPlan.BatchGuests | src/mqlab/phases.py:311-320 | batches concatenate back, are as few as can be, and all but the last are full |
| BootPlan.InOneBatch | src/mqlab/perfrun.py:292-306 | a guest is booted, and attributed, by one batch only |
| BootPlan.BatchSharesBox | src/mqlab/phases.py:340-350 | whether two guests of a batch clone one box |
| BootPlan.UpSteps | src/mqlab/phases.py:353-395 | one `vagrant up` per batch, numbered by its title, or a failure when a guest has no box; one by one exactly when two guests of the batch share a box |
| BootPlan.TitlesDiffer | src/mqlab/phases.py:389-393 | titles tell batches apart |
| BootPlan.VagrantUpBatches | src/mqlab/perfrun.py:153-160 | each title holds the arguments after `vagrant up` that do not start with a dash, of the last such step that bears it |
| BootPlan.BatchesReadBack | src/mqlab/perfrun.py:153-160 | reading the steps back gives exactly the batches |
| Sampler.Sampler.Fail | src/mqlab/perfsampler.py:197-202 | both tracking maps keep sharing their keys and mean the streak and the latest error |
| Sampler.Sampler.Succeed | src/mqlab/perfsampler.py:204-208 | a success ends the outage |
| Sampler.Sampler.Tick | src/mqlab/perfsampler.py:216-253 | one result per probe, in order |
| Sampler.Sampler.Stop | src/mqlab/perfsampler.py:280-301 | each probe still failing is noted once with its count |
| Sampler.StreakCounts | src/mqlab/perfsampler.py:204-208 | the count a recovery note carries is the number of failures since the last success |
| Sampler.NotedOnce | src/mqlab/perfsampler.py:197-202 | an unchanged error is noted once per outage |
| Sampler.FirstIsNoted | src/mqlab/perfsampler.py:197-202 | the first failure of an outage always is |
| Sampler.FailureNotedIff | src/mqlab/perfsampler.py:197-202 | a failure is noted exactly when the latest result of its probe was not the same failure |
| Sampler.SuccessNotedIff | src/mqlab/perfsampler.py:204-208 | a success is noted exactly when the latest result was a failure, with the failures since the success before |
| SshMux.StepKeeps | src/mqlab/perfsampler.py:612-633 | every step of every probe keeps the invariant |
| SshMux.OneFallOneNote | src/mqlab/perfsampler.py:570-578 | under any interleaving the flag falls at most once, with exactly one note |
| SshMux.ProbesRunOnce | src/mqlab/perfsampler.py:612-633 | a late probe runs plain once, a mux failure is re-run plain once, any other probe runs ssh once |
| SshMux.MuxFailureRunsPlain | src/mqlab/perfsampler.py:626-633 | a probe whose multiplexed ssh cannot set up ends after exactly one plain run, with the flag down |
| SshMux.NoControlRunsPlain | src/mqlab/perfsampler.py:616-624 | so does one that cannot prepare its control directory |
| SshMux.OtherErrorEnds | src/mqlab/perfsampler.py:626-633 | any other failure ends the probe with an error, without a plain run, and takes no flag down |
| SshMux.WorkedEnds | src/mqlab/perfsampler.py:626-633 | a multiplexed ssh that worked ends without an error |
| SshMux.PlainEnds | src/mqlab/perfsampler.py:626-633 | a plain run ends the probe, with an error exactly when it did not work |
| SshMux.FlagFallsBecause | src/mqlab/perfsampler.py:570-578 | the flag falls only through a probe that met a mux failure or had no control directory |
| SshMux.LateMeansAfterTheFall | src/mqlab/perfsampler.py:615 | a late probe is one that began when the flag was down |
| SshMux.FlagStaysDown | src/mqlab/perfsampler.py:570-578 | the flag never rises again |
| SshMux.MastersAreReached | src/mqlab/perfsampler.py:630-632 | the masters to close are those of the probes that multiplexed |
| Requester.RoundTripStats.RecordSuccess | components/mq-resiliency-clients/src/mqrc/app_requester.py:90-95 | each bucket stays the number of latencies at or below its edge |
| Requester.RenderProm | components/mq-resiliency-clients/src/mqrc/app_requester.py:102-124 | each bucket is the number of latencies no greater than its edge; buckets are non-decreasing and bounded by `+Inf`, which is the count |
| Requester.Client.RoundTrip | components/mq-resiliency-clients/src/mqrc/app_requester.py:245-262 | every call is on a connection that is alive, and follows the one before it as it should: connect, put, get |
| Requester.Client.Pass | components/mq-resiliency-clients/src/mqrc/app_requester.py:243-281 | one pass keeps that, counts one attempt, and drops the connection exactly on one of the eight reconnect reasons |
| Requester.Client.Run | components/mq-resiliency-clients/src/mqrc/app_requester.py:241-284 | a bounded run ends disconnected with `total == count`, exits 0 exactly when every call succeeded, never puts or gets on a connection after a reconnect reason on it, and drops a connection exactly on one of those reasons or at its end |
| Dns.RevInjective | src/mqlab/dns.py:78-84 | different addresses have different PTR owners |
| Dns.RevIff | src/mqlab/dns.py:78-84 | an address has a reverse name exactly when it has four parts; zone and owner are those parts backwards |
| Dns.ForwardZones | src/mqlab/dns.py:119-127 | both zones hold exactly the addresses and aliases of their nodes and VIPs, each name spelled out, an alias pointing at the first plane of data a, data b, external, management; a failure names a host and its fault |
| Dns.ZoneSpelled | src/mqlab/dns.py:87-116 | a zone's records, name by name, without the functions that compute them |
| Dns.AllReverseZones | src/mqlab/dns.py:130-142 | the reverse zones hold exactly the PTRs of all addresses, spelled out, and every address has its PTR |
| Dns.PtrsHaveOneAddress | src/mqlab/dns.py:130-142 | every PTR comes from one address and lies in its zone |
| Dns.CnameTargetsResolve | src/mqlab/dns.py:87-94 | every CNAME points at an address owner of its zone |
| Dns.CnameExclusiveIff | src/mqlab/dns.py:92-94 | when no CNAME owner has an address record, both directions |
| Dns.NameClash | src/mqlab/dns.py:92-94 | a topology on which a host's alias has the name of another host's interface |
| Bind.InfraByOrg | src/mqlab/bind.py:46-61 | the one infra node of each org, or a failure when there is none, two, or an undefined one |
| Bind.NsResolves | src/mqlab/bind.py:68-72 | a name-server target is an address owner of its zone |
| Bind.Render | src/mqlab/bind.py:119-156 | it succeeds exactly when each org has one infra node with an external address and every node and address can be named; then every zone is mastered by one infra node and forwarded to it by the other, never in a cycle, and its name server is the target of its infra node's own alias |

## Left out

- Wording of messages, notes, labels shown to people, transcripts and rendered reports; only decisions and recorded values are kept.
- The Ansible module shell around the corosync editor (`main`, `_write_temp`, check mode), and Python's 4300-digit limit of `int()` on a ring number.
- Characters outside ASCII as digits: `\d` is read as the ASCII digits in image names, timing lines and ring numbers.
- The order in which sets, dictionaries and directory listings are visited, and the order of the reported lists that follows from it; results do not depend on it.
- Migration: `ensure`, `clean`, worktree symlinks and `migrate_vagrant_dotfile`; duplicates are recorded by their legacy path only.
- Migration: whether a link resolves is observed once (`live`), so a link that changes during the run is not modelled.
- Migrate.Migrator.Migrate: covers checkouts in which neither build/ nor a bucket is a symbolic link (`MainCheckout`), as its documentation asks to run it from the main checkout; in a worktree the buckets are links to another checkout.
- Box collection: volumes created between the scan and the deletions of one pass, and the retired-name passes that run before it; the stems they own enter as dead stems.
- Catalog loading and its shape checks: a loaded catalog enters as `ValidCatalog`; IBM-support warnings and the pinned runtime are not part of this model.
- Lab runs: the net, provision and observe phases, secrets and prerequisites, which touch neither domains nor records; a failure in one of them is a bring-up that stops there. `commons up` and `commons down`, which concern commons guests only.
- Lab runs: a domain created or re-created by hand, outside the commands.
- LabRun.AlwaysPinned: says nothing of shared-role members, which run the OS their shared role had when they were created.
- Orchestrator.TotalSleep: reads delays as real numbers, so the rounding of floating-point powers is not modelled.
- The batch size check, `first_unsatisfied`, `_select_phases` and the satisfied probes: small lookups that would only add easy members. A resume skips the vms phase only on full membership, whatever `--no-dr` says.
- Sampler: CPU percentages and load parsing, the thread and its join timeout, and an error raised by the source's own `notes` or `close`.
- SshMux.MastersAreReached: does not model the closing commands themselves.
- Requester: errors other than MQI errors, publishing of the text file, sleeping, and a run with no bound, of which every prefix is covered by `Passes`.
- Dns: lower-casing of stack short names, which enter as they are rendered; zone-file text.
- Grafana builders, downloads, hashing, doctor and console helpers, inventory text: no hard property.
