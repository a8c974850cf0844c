# Verified model of the tripleo-heat-templates scripts

This project models the Python programs of tripleo-heat-templates that hold state, recursion or
meaning-preserving transformations, and proves what they guarantee. `dafny verify dfyconfig.toml`
checks all of it.

| files | what they model |
|---|---|
| `Neutron`, `Ctlplane` | the undercloud script that drives Neutron's `ctlplane` network towards a configuration, call by call, where each call may raise |
| `CtlplaneMigration` | histories of complete and aborted runs, and the safety of associating the local subnet |
| `CtlplaneViews`, `CtlplaneRefinement` | the network seen without ids, and the proof that every run refines a run on that view |
| `CtlplaneEffects`, `CtlplaneTheorems`, `CtlplaneFrames`, `CtlplaneIdempotence`, `CtlplaneRepeats`, `CtlplaneOwnership`, `CtlplaneRouters`, `CtlplaneAddresses` | what a run does to any network, and what follows over all histories |
| `Statedir`, `StatedirTheorems` | the walk that hands the nova state directory to the container's nova user |
| `NestedData`, `RSearchTheorems` | the deep key search over nested YAML data |
| `MysqlValidator` | the search with callbacks, and the MySQL connection check built on it |
| `Text`, `Passes`, `Comments`, `CommentSteps`, `CommentShapes`, `CommentLines`, `CommentEncoding`, `CommentTheorems` | the comment encoder and decoder of the NIC configuration converter |
| `Puppet`, `ConfigHash` | the service merge and the config hash of the container puppet runner |
| `Heat`, `Endpoints` | the endpoint map generator, with an evaluator for the Heat functions it emits |
| `Environments`, `EnvironmentParameters`, `EnvironmentPages` | the sample environment generator |

Programs that change things step by step are methods on classes, arrays of calls or loops; each is
proved equal to a function (or to its effect on the old state), and the theorems are about that
function. The theorems describe results by the fields, characters and keys of the inputs, not by the
functions of the model. `Wrappers`, `Sequences`, `Text` and `Passes` hold shared helpers.

## Main results

- **Reconciler.** A store operation happens only through `Connection`, which succeeds `budget` times
  and then raises, so quantifying over budgets quantifies over every point of abort. Every run on every
  store a history can leave is, seen without ids, a run on a map from CIDRs to subnets (`RunRefines`),
  and its effect there is known exactly if it completes and within bounds if it is aborted
  (`RunEffect`). From this, for histories of any runs of any configurations unless said otherwise:
  no CIDR and no physical network is ever duplicated (`HistorySound`); runs of one configuration aborted
  anywhere, followed by a complete one, leave the network of one uninterrupted run (`Convergence`);
  repeating a complete run creates and associates nothing wherever it is aborted, and leaves the very
  same store if it completes (`Idempotence`); a subnet on a physical network stays there (`NeverMoved`).
  If the local CIDR and physical network are kept, associations are made only while the local subnet
  and the implicit segment are alone (`MigrationSafe`), and a run dies only because a call raised
  (`RunCompletes`).
- **Reconciler, under conditions.** A remote subnet ends on its own segment if and only if it is new or
  was there (`OwnSegmentIff`), and shares one if and only if the subnets before the run say so
  (`SharedSegmentIff`); renaming a subnet and reusing its name puts two subnets on one segment
  (`RenamedSubnetIsJoined`), and a naming discipline over the history excludes it (`SegmentOwnership`).
  An aborted repeat leaves the store as it is if and only if no configured subnet writes over another
  (`AbortedRepeatIff`). The router of an IPv6 subnet is created only together with the subnet, so an
  abort in between is never repaired (`RouterIff`, `AbortLosesRouter`). Over written addresses, IPv4
  subnets have the metadata route and never a router, and IPv6 ones no routes and a router of their
  own name (`CtlplaneAddresses`).
- **Ownership walk.** For every tree, listing order, set of failing paths and kill point: the exact
  effect per path, exactly one chown call per wrong path, and, after runs that were killed and may have
  failed on other paths, the exact result of the run that completes (`Resume`, `ResumeIff`). Files
  whose chown failed in a run that completes are not repaired by any later run, because the marker is
  gone (`RetryIff`).
- **Deep search.** Results are exactly the matching places that no earlier visited place covers as a
  set of steps (`RSearchIsCorrect`, `ReturnedIff`), where the order of visits is what lies below a place
  first and then the order of lists and mappings (`VisitedInOrder`). Comparing steps as sets drops places that no
  result leads to (`SwappedKeysAreDropped`), which the function's documentation does not mention.
- **Comments.** Encoding and decoding any text gives back its non-blank lines if and only if every one
  of them is faithful: no `get_input: `, no comment in column 0, no comment after a value, no line
  already shaped like an encoded comment, and no text in a comment that ends the file without a newline,
  since its last character is lost (`RoundTrip`). A second trip changes nothing unless the file ends in
  the middle of a line that is no comment; then it adds an empty line (`SecondTrip`).
  Each line's encoding is spelled out, with comment numbers that count up by one (`EncodingGrows`), and
  so are the lines that the decoder takes for encoded ones (`CommentPattern`, `InlinePattern`).
- **Merge.** The in-place merge is the group-by over exactly the services with a manifest and an image; the merged tags are the comma-joined tags if and only
  if the first service has tags or no other has (`TagsIff`), otherwise they start with `None,` or `,`.
- **Endpoints.** A generated `uri` is its `uri_no_suffix` plus exactly the suffix if and only if the
  part before `%` is empty or a URL-safe absolute path (`UriIff`).
- **Environments.** An environment is one mapping with its children in it. After merging, the children
  found are the definition's own, so the recursion ends; each definition has one page, made from the
  latest settings on the way to it, until one cannot be written (`Inheritance`, `GenerateEnvironment`).

## Model

| member | source | states |
|---|---|---|
| Neutron.Connection.Send | extraconfig/post_deploy/undercloud_ctlplane_network.py:125-131 | one API call either raises and ends the script or takes effect, and is noted in both cases |
| Neutron.Connection.Networks | extraconfig/post_deploy/undercloud_ctlplane_network.py:44-45 | listing the networks returns the ctlplane network if there is one and changes nothing |
| Neutron.Connection.Subnets | extraconfig/post_deploy/undercloud_ctlplane_network.py:166-173 | the first subnet with the CIDR, or none, with the store unchanged |
| Neutron.Connection.Segments | extraconfig/post_deploy/undercloud_ctlplane_network.py:176-185 | the first segment on the physical network, or none, with the store unchanged |
| Neutron.SubnetIndex | extraconfig/post_deploy/undercloud_ctlplane_network.py:168-173 | the lowest position with the CIDR, or none when no subnet has it |
| Neutron.SegmentIndex | extraconfig/post_deploy/undercloud_ctlplane_network.py:178-185 | the lowest position with the physical network, or none when no segment has it |
| Ctlplane.EnsureNeutronNetwork | extraconfig/post_deploy/undercloud_ctlplane_network.py:42-62 | creates the network with its implicit segment, or sets the mtu of the existing one |
| Ctlplane.NeutronSubnetCreate | extraconfig/post_deploy/undercloud_ctlplane_network.py:65-98 | adds the subnet on the given segment, without routes for IPv6 and then with a router, each call of which may raise |
| Ctlplane.LocalNeutronSegmentsAndSubnets | extraconfig/post_deploy/undercloud_ctlplane_network.py:198-235 | follows the specification of the local step in every branch and abort, and appends the local CIDR |
| Ctlplane.RemoteNeutronSegmentAndSubnet | extraconfig/post_deploy/undercloud_ctlplane_network.py:245-271 | follows the specification of one remote subnet in every branch and abort |
| Ctlplane.RemoteNeutronSegmentsAndSubnets | extraconfig/post_deploy/undercloud_ctlplane_network.py:237-274 | follows the specification of the loop and appends each remote CIDR in configuration order |
| Ctlplane.ConfigureCtlplane | extraconfig/post_deploy/undercloud_ctlplane_network.py:281-294 | the whole script is the run that the theorems are about, complete or aborted |
| CtlplaneMigration.LocalSafe | extraconfig/post_deploy/undercloud_ctlplane_network.py:209-216 | the local step keeps the local subnet first and associates only while it is alone; a routed one ends with it on a segment |
| CtlplaneMigration.RunSafe | extraconfig/post_deploy/undercloud_ctlplane_network.py:285-291 | a run, complete or aborted, keeps the migration invariant and every association it makes is safe |
| CtlplaneMigration.MigrationSafe | extraconfig/post_deploy/undercloud_ctlplane_network.py:209-216 | over every history that keeps the local CIDR and physical network, an association is made only while the network holds the local subnet without segment and the implicit segment |
| CtlplaneViews.SetAttrsView | extraconfig/post_deploy/undercloud_ctlplane_network.py:101-122 | updating a subnet changes the attributes of exactly its CIDR, its routes only for IPv4, and keeps the store sound |
| CtlplaneViews.RenameSegmentView | extraconfig/post_deploy/undercloud_ctlplane_network.py:148-154 | updating a segment renames the segment of exactly its physical network and moves no subnet |
| CtlplaneViews.LinkSubnetView | extraconfig/post_deploy/undercloud_ctlplane_network.py:125-131 | an association moves exactly one subnet, to that segment's physical network |
| CtlplaneViews.AddSegmentView | extraconfig/post_deploy/undercloud_ctlplane_network.py:133-145 | a segment for a new physical network adds exactly that name and moves no subnet, since ids are fresh |
| CtlplaneViews.AddSubnetView | extraconfig/post_deploy/undercloud_ctlplane_network.py:65-98 | a subnet with a new CIDR adds exactly that entry, on the physical network of its segment and without router |
| CtlplaneViews.AttachSubnetView | extraconfig/post_deploy/undercloud_ctlplane_network.py:157-160 | attaching a subnet to a router concerns exactly that subnet |
| CtlplaneRefinement.LocalRefines | extraconfig/post_deploy/undercloud_ctlplane_network.py:198-235 | the local step refines its counterpart on views, in each branch and abort |
| CtlplaneRefinement.RemoteRefines | extraconfig/post_deploy/undercloud_ctlplane_network.py:245-271 | one remote subnet refines its counterpart on views, in each branch and abort |
| CtlplaneRefinement.RunRefines | extraconfig/post_deploy/undercloud_ctlplane_network.py:281-294 | a run on a sound store is the run on its view, with the same calls left, creations and survival, and leaves a sound store |
| CtlplaneRefinement.HistorySound | extraconfig/post_deploy/undercloud_ctlplane_network.py:198-294 | after every history whatever: no CIDR or physical network duplicated, no dangling link, no routes on IPv6 |
| CtlplaneEffects.RunEffect | extraconfig/post_deploy/undercloud_ctlplane_network.py:281-294 | from any network, a complete run leaves exactly the stated one, and an aborted one something between it and the old |
| CtlplaneTheorems.AfterEffect | extraconfig/post_deploy/undercloud_ctlplane_network.py:281-294 | the same for every run of every history of stores |
| CtlplaneTheorems.NeverMoved | extraconfig/post_deploy/undercloud_ctlplane_network.py:250-256 | in any run after any history, a subnet on a physical network stays there |
| CtlplaneTheorems.Untouched | extraconfig/post_deploy/undercloud_ctlplane_network.py:241-274 | a complete run leaves every subnet that it does not configure exactly as it was |
| CtlplaneTheorems.SubnetAttributes | extraconfig/post_deploy/undercloud_ctlplane_network.py:202-208 | after a complete run each configured subnet has its own attributes behind a metadata route through the undercloud (local) or its gateway (remote), none for IPv6 |
| CtlplaneTheorems.Convergence | extraconfig/post_deploy/undercloud_ctlplane_network.py:198-294 | for any configuration, aborted runs and then a complete one end like a single uninterrupted run, up to ids and routers |
| CtlplaneTheorems.RunCompletes | extraconfig/post_deploy/undercloud_ctlplane_network.py:281-294 | after any history that keeps the local CIDR and physical network, a run completes unless a call raises, within 8 calls and 6 for each subnet |
| CtlplaneIdempotence.GoalTwice | extraconfig/post_deploy/undercloud_ctlplane_network.py:237-294 | a configuration applied to its own result leads nowhere else, whoever writes last |
| CtlplaneIdempotence.Idempotence | extraconfig/post_deploy/undercloud_ctlplane_network.py:237-294 | after any history and a complete run, its repeat neither creates nor associates wherever it is aborted, and leaves the same store if it completes |
| CtlplaneIdempotence.TagsAreTheCidrs | extraconfig/post_deploy/undercloud_ctlplane_network.py:292-294 | the local CIDR first, then when routed each remote CIDR in configuration order, none twice exactly if no two subnets share one |
| CtlplaneFrames.RunFramed | extraconfig/post_deploy/undercloud_ctlplane_network.py:198-294 | a run without creations and associations keeps all ids, CIDRs and links |
| CtlplaneRepeats.AbortedRepeatIff | extraconfig/post_deploy/undercloud_ctlplane_network.py:237-294 | every repeat, wherever aborted, leaves the store as it is exactly when no configured subnet writes over another |
| CtlplaneOwnership.RemotePlace | extraconfig/post_deploy/undercloud_ctlplane_network.py:250-267 | a complete routed run leaves a remote subnet where it was if its CIDR existed, and else on the physical network of its name |
| CtlplaneOwnership.OwnSegmentIff | extraconfig/post_deploy/undercloud_ctlplane_network.py:250-267 | after any history, a remote subnet ends on its own segment exactly when it is new or was there already |
| CtlplaneOwnership.SharedSegmentIff | extraconfig/post_deploy/undercloud_ctlplane_network.py:250-267 | after any history, two remote subnets end on one segment exactly when they were on one or a new one has the name of the other's physical network |
| CtlplaneOwnership.LocalPlaceIff | extraconfig/post_deploy/undercloud_ctlplane_network.py:209-224 | the local subnet ends on the configured physical network exactly when it was not on another |
| CtlplaneOwnership.RenamedSubnetIsJoined | extraconfig/post_deploy/undercloud_ctlplane_network.py:250-267 | two complete runs with a renamed subnet and its name reused put both subnets on the old segment |
| CtlplaneOwnership.SegmentOwnership | extraconfig/post_deploy/undercloud_ctlplane_network.py:241-272 | under a naming discipline over the history, a complete routed run leaves each configured remote subnet alone on the segment with its name and physical network |
| CtlplaneOwnership.DisciplinedRepeat | extraconfig/post_deploy/undercloud_ctlplane_network.py:237-294 | under the discipline, even an aborted repeat leaves the store as it is |
| CtlplaneRouters.RouterIff | extraconfig/post_deploy/undercloud_ctlplane_network.py:270-271 | after any history, an IPv6 subnet has its router after a complete run exactly when it was new to it or had one |
| CtlplaneRouters.NoRouterForV4 | extraconfig/post_deploy/undercloud_ctlplane_network.py:229-232 | no history gives an IPv4 subnet a router |
| CtlplaneRouters.AbortLosesRouter | extraconfig/post_deploy/undercloud_ctlplane_network.py:225-232 | an abort after the fifth call of a first run leaves an IPv6 local subnet without router after the next complete run |
| CtlplaneAddresses.RoutesOfV4 | extraconfig/post_deploy/undercloud_ctlplane_network.py:68-98 | a subnet written as four numbers has, after a complete run, the metadata route and then its own routes |
| CtlplaneAddresses.NoRoutersForV4 | extraconfig/post_deploy/undercloud_ctlplane_network.py:231-232 | no history of complete and aborted runs attaches such a subnet to a router |
| CtlplaneAddresses.NoRoutesForV6 | extraconfig/post_deploy/undercloud_ctlplane_network.py:68-80 | a subnet written as groups with colons has no routes after a complete run |
| CtlplaneAddresses.RouterOfV6 | extraconfig/post_deploy/undercloud_ctlplane_network.py:157-160 | such a subnet that is new to a complete run is attached to one router, which bears its name, and an old one keeps those it had |
| Statedir.FileSystem.ListDir | container_config_scripts/tests/test_nova_statedir_ownership.py:109-117 | the names of the entries directly below, each once, in any order |
| Statedir.FileSystem.Chown | container_config_scripts/tests/test_nova_statedir_ownership.py:94-100 | sets the given ids of one path unless it fails, or the process is killed first |
| Statedir.FileSystem.Unlink | container_config_scripts/tests/test_nova_statedir_ownership.py:120-123 | removes exactly one path |
| Statedir.PathManager.constructor | container_config_scripts/nova_statedir_ownership.py:29-37 | remembers the path's kind and owner |
| Statedir.PathManager.Chown | container_config_scripts/nova_statedir_ownership.py:53-77 | the path has the wanted owner unless its chown fails, with no call when it had it already |
| Statedir.NovaStatedirOwnershipManager.constructor | container_config_scripts/nova_statedir_ownership.py:101-123 | target and previous ids, the latter from the marker if there is one |
| Statedir.NovaStatedirOwnershipManager.Walk | container_config_scripts/nova_statedir_ownership.py:125-146 | sets exactly the region below a directory, for every listing order; a part of it when killed |
| Statedir.NovaStatedirOwnershipManager.VisitDirectory | container_config_scripts/nova_statedir_ownership.py:134-137 | a directory gets the target, and what is below it is covered even if that fails |
| Statedir.NovaStatedirOwnershipManager.VisitFile | container_config_scripts/nova_statedir_ownership.py:138-146 | a file gets its specified owner, with a call only if it differs |
| Statedir.NovaStatedirOwnershipManager.Run | container_config_scripts/nova_statedir_ownership.py:148-166 | the whole effect with a call for each wrong path, or when killed a part of it with the marker kept |
| Statedir.AppliedTwice | container_config_scripts/nova_statedir_ownership.py:138-146 | setting owners in two batches, which may overlap, is setting them in one |
| StatedirTheorems.FullEffect | container_config_scripts/nova_statedir_ownership.py:125-164 | path by path: directories the target, files id by id, failed paths and everything outside unchanged, the marker gone |
| StatedirTheorems.SameJob | container_config_scripts/nova_statedir_ownership.py:118-131 | a run stopped anywhere leaves the ids to replace as they were, since the walk skips the marker |
| StatedirTheorems.Resume | container_config_scripts/nova_statedir_ownership.py:118-164 | after killed runs, each with its own failing paths, a complete one leaves exactly those visited paths as they were on which it fails and which no killed run had set |
| StatedirTheorems.ResumeIff | container_config_scripts/nova_statedir_ownership.py:118-164 | that is what one uninterrupted run leaves exactly when no killed run had put right a path on which the last one fails |
| StatedirTheorems.MinimalCalls | container_config_scripts/nova_statedir_ownership.py:53-77 | as many chown calls as visited paths with the wrong owner, one for each |
| StatedirTheorems.SecondRun | container_config_scripts/nova_statedir_ownership.py:106-163 | a second run finds to do exactly the directories that failed, so nothing without failures |
| StatedirTheorems.RetryIff | container_config_scripts/nova_statedir_ownership.py:71-72 | a failed path is repaired by a later run exactly when it is a directory or was right |
| NestedData.Searcher.Report | tools/yaml-validate.py:818-825 | appends a copy of the path unless a result has all its steps |
| NestedData.Searcher.Nested | tools/yaml-validate.py:799-847 | adds the matches below in visiting order, filtered, and restores the path stack |
| NestedData.Searcher.Visit | tools/yaml-validate.py:804-847 | one turn of the loop: what is below a child, then the child itself, with its step taken off again |
| NestedData.RSearchKeys | tools/yaml-validate.py:849-850 | the filtered matches of the whole value |
| RSearchTheorems.MatchesArePositions | tools/yaml-validate.py:804-845 | the matches are exactly the places that `_get` resolves through mappings, and lists if they are entered, and whose last key, if names are searched, or else value matches |
| RSearchTheorems.KeepAllIs | tools/yaml-validate.py:819-825 | the filter keeps exactly the paths that no earlier path covers, kept or not |
| RSearchTheorems.RSearchIsCorrect | tools/yaml-validate.py:773-864 | results resolve to hits, every hit is covered by a result, no later result is covered by an earlier one |
| RSearchTheorems.VisitedOnce | tools/yaml-validate.py:804-845 | no place is visited twice |
| RSearchTheorems.ReturnedIff | tools/yaml-validate.py:819-825 | a matching place is returned exactly when each place visited before lacks one of its steps |
| RSearchTheorems.VisitedInOrder | tools/yaml-validate.py:804-845 | what lies below a place is visited before it, smaller indices before larger ones, and entries in the mapping's order |
| RSearchTheorems.SwappedKeysAreDropped | tools/yaml-validate.py:821-823 | of two matches with the same steps in another order only the first is returned |
| MysqlValidator.SearchIsFirst | tools/yaml-validate.py:494-507 | the recursive search is the first decisive callback answer in visiting order |
| MysqlValidator.VisitsItems | tools/yaml-validate.py:497-506 | the items visited are the values that occur inside |
| MysqlValidator.VisitsEntries | tools/yaml-validate.py:502-503 | the entries visited are those of the mappings inside |
| MysqlValidator.AsksForBoth | tools/yaml-validate.py:517-519 | the callback accepts exactly the texts, lists and mappings that mention both options as a part, an item or a key, and raises on anything else |
| MysqlValidator.BindAddressFound | tools/yaml-validate.py:517-528 | the options are missed exactly for bad entries, and membership raises exactly for breaking ones |
| MysqlValidator.Validator.ValidateMysqlUri | tools/yaml-validate.py:521-530 | notes an error exactly for a bad entry, and raises exactly for a breaking one |
| MysqlValidator.Validator.SearchSettings | tools/yaml-validate.py:494-507 | with callbacks that never accept, every entry is visited |
| MysqlValidator.ValidateMysqlConnection | tools/yaml-validate.py:510-532 | returns 1 exactly when some entry at any depth has a key ending in `connection`, the list that looks up the MySQL protocol in its value, and no node there mentioning both options; raises exactly when in such a value a number or null is visited before a node mentioning both |
| MysqlValidator.TextNeverBreaks | tools/yaml-validate.py:517-519 | settings of strings, lists and mappings never raise |
| Text.ParsePrinted | tools/yaml-nic-config-2-script.py:101-101 | reading a printed indent gives the indent |
| Comments.ToCommentedYaml | tools/yaml-nic-config-2-script.py:46-82 | the loops over lines and characters compute the encoding |
| Comments.DecodeOne | tools/yaml-nic-config-2-script.py:92-111 | one turn of the decoder with its line-break state |
| Comments.ToNormalYaml | tools/yaml-nic-config-2-script.py:85-119 | the loop computes the decoding |
| CommentSteps.CommentRead | tools/yaml-nic-config-2-script.py:66-103 | the decoder recognises an encoded comment that is indented, with its indent and text, whatever quotes it holds |
| CommentSteps.InlineRead | tools/yaml-nic-config-2-script.py:76-105 | it recognises an encoded inline comment, and not as a comment line |
| CommentSteps.FaithfulStep | tools/yaml-nic-config-2-script.py:57-111 | a faithful line adds itself to the output |
| CommentShapes.CommentPattern | tools/yaml-nic-config-2-script.py:94-94 | the decoder takes for comments exactly the lines of spaces, `comment`, digits, underscore, digits and a quoted text, which goes up to the last quote |
| CommentShapes.InlinePattern | tools/yaml-nic-config-2-script.py:95-95 | and for inline comments exactly those of spaces, `inline_comment`, digits and a quoted text |
| CommentShapes.FaithfulIff | tools/yaml-nic-config-2-script.py:57-111 | which lines come back, character by character |
| CommentShapes.KeyIsDropped | tools/yaml-nic-config-2-script.py:93-93 | every `get_input: ` is dropped from left to right and nothing else |
| CommentEncoding.LineEncoded | tools/yaml-nic-config-2-script.py:57-79 | a comment line becomes a key with its number, indent and text; a commented value is followed by a key with its number and the text after its last hash; other lines stay, and blank ones go |
| CommentEncoding.EncodingGrows | tools/yaml-nic-config-2-script.py:46-82 | the numbers of the comments in a file count up by one |
| CommentEncoding.CommentedReturns | tools/yaml-nic-config-2-script.py:104-106 | when the comment has been stripped from a commented value, decoding puts it back |
| CommentLines.Pipeline | tools/yaml-nic-config-2-script.py:46-119 | encoding any text and then decoding it is one pass over its lines and what becomes of an unfinished one |
| CommentLines.UnfaithfulDiverges | tools/yaml-nic-config-2-script.py:94-111 | an unfaithful line does not come back in its place, whatever surrounds it |
| CommentTheorems.EndIff | tools/yaml-nic-config-2-script.py:67-79 | an unfinished last line comes back exactly if it is blank or faithful, and is no comment with text |
| CommentTheorems.RoundTrip | tools/yaml-nic-config-2-script.py:46-119 | for every text, the non-blank lines come back in order exactly when each is faithful |
| CommentTheorems.SecondTrip | tools/yaml-nic-config-2-script.py:46-119 | going through both passes again changes nothing, unless the text ends in an unfinished line that is no comment |
| Puppet.MergeServices | docker/container-puppet.py:207-260 | the loop with its in-place updates builds the group-by, under any volume filter |
| Puppet.GroupByGrows | docker/container-puppet.py:239-260 | adding a service to the group-by is what one turn of the loop does |
| Puppet.MergeIsGroupBy | docker/container-puppet.py:212-260 | a volume has a row exactly if some service with a non-empty manifest and image names it, and the row merges all of these in order: manifests by newlines, volumes, first image and flag, and the first tags with the other non-empty ones after commas |
| Puppet.FilterIsRestriction | docker/container-puppet.py:255-257 | filtering by a volume restricts the unfiltered result to it, and an empty filter is none |
| Puppet.TagsIff | docker/container-puppet.py:242-244 | the tags are the comma-joined ones exactly when the first service has tags or no other has |
| ConfigHash.SortSorts | docker/container-puppet.py:147-148 | the mounted volumes are put in order without losing any |
| ConfigHash.HashIsStable | docker/container-puppet.py:139-148 | permuting a container's volumes leaves its hash unchanged |
| ConfigHash.UpdateStartupConfig | docker/container-puppet.py:555-564 | every container is updated, whatever the order |
| ConfigHash.HashesOf | docker/container-puppet.py:139-158 | hashed are the directories before the colon of the volumes with the prefix, in order, as far as they have a hash that is not empty |
| ConfigHash.UpdateFrame | docker/container-puppet.py:555-564 | only an environment changes, by `TRIPLEO_CONFIG_HASH=` and these hashes joined by dashes at its end if there are any, and not by the order of volumes |
| Heat.PathPartIff | network/endpoints/build_endpoint_map.py:161-164 | quoting leaves a path alone exactly when it is empty or absolute and safe |
| Endpoints.NamesAreInjective | network/endpoints/build_endpoint_map.py:65-73 | endpoint name and type can be read off their concatenation |
| Endpoints.DefaultMapIsExact | network/endpoints/build_endpoint_map.py:65-78 | one entry for each service and type, with the type's protocol or the service's or `http`, the type's port or the service's, and a host to be replaced; no other entry |
| Endpoints.OutputIs | network/endpoints/build_endpoint_map.py:61-183 | which outputs there are, under which names, and on which network parameter |
| Endpoints.UriIff | network/endpoints/build_endpoint_map.py:154-166 | the URI is its form without suffix and exactly the suffix, when and only when the suffix is safe |
| Endpoints.HostMeaning | network/endpoints/build_endpoint_map.py:121-153 | the plain host is the network's address and the other its `_uri` form, or both are the cloud name |
| Endpoints.BracketedHost | network/endpoints/build_endpoint_map.py:136-160 | a bracketed `_uri` address stands in the URI as it is, as section 3.2.2 of RFC 3986 wants it |
| Endpoints.ReferencesAreClosed | network/endpoints/build_endpoint_map.py:107-196 | each look into the endpoint map in a generated output names an entry of the default map and one of its fields |
| Environments.ChildrenAreOwn | tripleo_heat_templates/environment_generator.py:78-80 | after merging, the children found are the definition's own |
| Environments.ChildrenWouldBeInherited | tripleo_heat_templates/environment_generator.py:79-79 | without the removal a definition without children would find itself among them |
| Environments.Inheritance | tripleo_heat_templates/environment_generator.py:76-80 | each definition of the tree is merged in one place with those on the way to it, the latest setting winning and children not inherited |
| EnvironmentPages.WritePage | tripleo_heat_templates/environment_generator.py:81-160 | a page has the split and the samples of its merged settings; there is none exactly if the name, a file or a selected parameter is missing |
| EnvironmentPages.ShownSamples | tripleo_heat_templates/environment_generator.py:122-124 | exactly the listed parameters with a sample value are shown with it |
| EnvironmentPages.PageSpelled | tripleo_heat_templates/environment_generator.py:81-124 | a page by the keys of the settings that it is made from |
| EnvironmentPages.BrokenSpelled | tripleo_heat_templates/environment_generator.py:85-105 | which settings have no page, by their keys |
| EnvironmentPages.GenerateEnvironment | tripleo_heat_templates/environment_generator.py:75-201 | the recursion ends, and writes the pages of the merged definitions in order until one is broken, which stops everything |
| EnvironmentPages.GenerateEnvironments | tripleo_heat_templates/environment_generator.py:211-216 | the same over all definitions of a file |
| EnvironmentPages.PageOfEvery | tripleo_heat_templates/environment_generator.py:75-201 | in a tree written to the end, every definition has its page, made from the latest settings on the way to it |
| EnvironmentParameters.SelectFrom | tripleo_heat_templates/environment_generator.py:90-106 | a template adds what its roles select, without hidden names unless mentioned; a missing name is an error |
| EnvironmentParameters.SelectParameters | tripleo_heat_templates/environment_generator.py:85-106 | each role's names are exactly those selected for it in some template, and each has a definition |
| EnvironmentParameters.SplitParameters | tripleo_heat_templates/environment_generator.py:108-120 | static and ordinary parameters are disjoint and together the selected names except private ones not marked static |
| EnvironmentParameters.InitializeParams | tripleo_heat_templates/environment_generator.py:59-62 | a sample reaches the one shared entry of its parameter if some role lists it, and no other |
| EnvironmentParameters.InitializeAll | tripleo_heat_templates/environment_generator.py:122-124 | after all samples exactly the listed parameters with a sample have it |

## Left out

- Neutron's own behaviour is assumed, not modelled from source: creating the network creates one
  unnamed segment for its physical network (network/network.j2:166), a segment can be given to an
  existing subnet only while the network has one segment and one subnet (network/network.j2:173-175),
  updating a segment without an id raises, ids are never reused, and CIDRs are compared as written.
- One network named `ctlplane` is modelled; other networks, hiera, printing and the check whether the
  Neutron API is enabled are not. A call that takes effect and raises all the same is an abort before
  the next call. IPv6 is read off a colon in the CIDR; malformed CIDRs are not modelled.
- CtlplaneTheorems.Convergence: routers are not part of the compared network, because `AbortLosesRouter` shows that
  they do not converge; `RouterIff` says exactly when one is there.
- Statedir.NovaStatedirOwnershipManager.Run: requires the state directory to be a directory and a
  well-formed tree; symlinks, permissions, concurrent changes, logging and a marker that is itself a
  directory (unlinking it would raise) are not modelled.
- NestedData: pattern matching on names and on printed values is a pair of arbitrary predicates;
  mapping keys are strings. MysqlValidator: likewise, keys are strings.
- Comments: files are texts with `\n` line ends, white space is the ASCII one, and YAML loading and
  dumping between the two passes is not modelled.
- Puppet.MergeServices: services are in mapping form with list volumes (an absent one is empty); the
  positional form, null volumes and the log are not modelled, nor is that the first service's volume
  list is extended in place inside the loaded JSON. Running containers and pulling images are left out.
- ConfigHash.UpdateStartupConfig: environments are lists; reading and writing the files is left out,
  and hashes come from a fixed store.
- Heat: the evaluator states what the four intrinsic functions are taken to do, since Heat is not part
  of this repository; a lookup that leads nowhere is the empty string, and quoting works on one-byte
  characters.
- Endpoints: the order of the outputs and collisions between overridden output names are not modelled.
- EnvironmentPages: how entries are printed, titles, descriptions and resource registries are left out.
  Settings have the type the generator expects; one of another type is read as absent, and template
  files do not change during a run.
- `process-templates.py`, the Jinja templates, the include-following MySQL check, role comparisons,
  `undercloud_post.py` and the other thin clients are left out: they are string matching, plumbing or
  depend on engines outside this repository.
