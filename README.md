# hpcbursarcli storage and grant helpers in Dafny

This project models the core of two command-line tools of hpcbursarcli, the
client of the HPC grant registry.

`manage-project-storage` runs as root on a cluster. It keeps one Lustre
project directory per research group, with a project quota equal to the
storage that the group's active grants allocate. It works in these steps:

- select the active grants;
- group them under the group names the registry lists;
- add up their `storage` allocations, with a floor of 1 GB;
- map each group name to a system gid;
- for each group that exists on the system:
  - create and tag its directory under `/net/pr2/projects/plgrid/` when it is missing;
  - otherwise query the quota with `lfs quota` and reset it with `lfs setquota` only when it differs.

`hpc-grants` shows a user their grants. The model covers its helpers:

- allocations are sorted by resource;
- the parameters `hours`, `timelimit` and `capacity` come first;
- their numbers are formatted with thousands separated by spaces, followed by a unit.

The files:

- `wrappers.dfy`: `Option`, `Result`, and the Python exceptions the code can raise (`KeyError`, `ValueError`, `IndexError`, `TypeError`).
- `strings.dfy`: the parts of Python's `str` the code uses: `in`, `split()`, `split('\n')`, `str(int)` and `int(str)`.
- `grants.dfy`:
  - grant records and `is_grant_active`;
  - `sum_storage`, as a loop proved against a recursive specification and against a closed form;
  - the grouping loop of `main`.
- `quota.dfy`:
  - the `lfs` command lines;
  - the GB/kB conversions;
  - the parsing in `check_quota`;
  - the text `lfs quota` prints after a `setquota`.
- `storage.dfy`: `synchronize_storage`. The machine is abstract:
  - a set of existing directories;
  - what `lfs quota -p <gid>` prints for each project id;
  - a log of every external action, in order.

  The class `StorageHost` holds this state and its methods change it in place. Each method is proved equal to a function over the state (`Reconcile`, `Provision`, `Step`, `RunGroups`). The properties are proved as lemmas about those functions:
  - unknown groups are skipped;
  - at most one quota write per group;
  - exact action sequences;
  - idempotence.
- `hpc_grants.dfy`:
  - Python dictionaries as insertion-ordered entry lists;
  - `format_number` (integer branch), `process_parameter_value` and `process_parameters`;
  - `order_allocations`: a stable insertion sort, with permutation, sortedness and stability lemmas.

Behaviour of the code that the model keeps:

- A storage allocation without a `capacity` parameter raises `KeyError` in `sum_storage`, and the exception ends the whole run. The effects of the groups already processed remain.
- `check_quota` converts kB to GB by `int(kb / 1024 / 1024)`, which truncates toward zero, so a negative reading of -1 kB gives 0 GB.
- The status test is a case-sensitive substring test on the two words `accepted` and `active`.
- The only outputs of `synchronize_storage` are its effects and the exception that stops it.
- The exit code of every `lfs` command is ignored.

## Model

| member | source | states |
|---|---|---|
| Strings.ContainsIff | manage-project-storage.py:108 | Python's `sub in s` holds iff `sub` occurs at some position of `s` |
| Strings.NotContainsMissingChar | manage-project-storage.py:160 | a string lacking one of the characters of `sub` does not contain `sub` |
| Strings.FieldsOfJoin | manage-project-storage.py:109 | `split()` of whitespace-free words joined by single spaces gives the words back |
| Strings.FieldsSkipsSpaces | manage-project-storage.py:109 | leading whitespace does not change `split()` |
| Strings.SplitOnJoin | manage-project-storage.py:107 | the pieces of `split('\n')` contain no line break, and joining them with `\n` restores the text |
| Strings.IntToStrRoundTrip | manage-project-storage.py:105 | `int(str(i)) == i` for every integer, so the gid and kB figures put on a command line read back exactly |
| Grants.IsGrantActive | manage-project-storage.py:156-163 | a grant is active iff its status contains `accepted` or `active` as a substring |
| Grants.InactiveCountsAsActive | manage-project-storage.py:160 | the status `inactive` counts as active, because the test is a substring test |
| Grants.StatusWithoutCIsInactive | manage-project-storage.py:160-163 | a status without the letter `c` (e.g. `expired`) is never active |
| Grants.StorageAllocations | manage-project-storage.py:99 | an allocation is selected iff its resource is exactly `storage` (case-sensitive) |
| Grants.AddGrantStorage | manage-project-storage.py:98-100 | the inner loop adds the capacities of one grant's storage allocations to the running sum, or raises `KeyError('capacity')` |
| Grants.SumStorage | manage-project-storage.py:94-101 | the nested loop returns exactly the specified total, or the `KeyError` it raises |
| Grants.StorageTotalIsSum | manage-project-storage.py:94-101 | the total is the sum of `capacity` over exactly the storage allocations of all grants. It is `KeyError('capacity')` when one of them lacks the parameter. Grants without `allocations` add 0, and no grants give 0 |
| Grants.AllocationsTotalIsSum | manage-project-storage.py:98-100 | the same closed form for the allocations of one grant |
| Grants.StorageFailureSticks | manage-project-storage.py:100 | once a missing capacity raises, later grants do not change the outcome |
| Grants.FirstOccurrencesSpec | manage-project-storage.py:178-179 | the dictionary keys are the listed group names, each once |
| Grants.ActiveGrantsOfSpec | manage-project-storage.py:180-185 | a grant is listed under a group iff it is active and names that group |
| Grants.GroupActiveGrants | manage-project-storage.py:177-187 | the grouping loop builds keys in first-seen order, exactly the listed names. Each key holds the active grants naming it, in input order. Grants naming an unlisted group appear nowhere |
| Grants.ExpiredGrantIgnored | manage-project-storage.py:180-182 | with an active grant of 50 GB and an expired grant of 999 GB in one group, the group total is 50 |
| Quota.KbToGb | manage-project-storage.py:110 | kB to GB truncates toward zero: bounds for non-negative and for negative readings |
| Quota.KbToGbOfGbToKb | manage-project-storage.py:110-115 | a whole number of GB written as kB reads back as the same GB |
| Quota.QueryCommand | manage-project-storage.py:105 | `lfs quota -p <gid> /net/pr2/`: a project (`-p`) query whose gid field parses back to the gid |
| Quota.SetQuotaCommand | manage-project-storage.py:115-116 | `lfs setquota -p <gid> -B <kB> /net/pr2/` for a project, whose gid field parses back to the gid and whose kB field parses to exactly `gb * 1024 * 1024`, which converts back to `gb` |
| Quota.SetProjectCommand | manage-project-storage.py:121 | `lfs project -p <gid> -s -r <path>`: project id `gid` (parsing back to it), inherited (`-s`), recursive (`-r`), on exactly `path` |
| Quota.QuotaOfLinesFirstMatch | manage-project-storage.py:107-111 | only the first line mentioning the file system decides the result. With no such line the result is `None` |
| Quota.QuotaOfLinesOutcome | manage-project-storage.py:107-111 | once line `k` is the first to mention `/net/pr2/`: `IndexError` iff it has fewer than four fields, otherwise `ValueError` carrying the fourth field iff that field is not an integer, otherwise that field converted to GB |
| Quota.ReadQuota | manage-project-storage.py:107-111 | the loop over the output lines returns exactly the specified reading |
| Quota.QuotaOfListingReadsLimit | manage-project-storage.py:107-111 | from the listing of a project with hard limit `kb`, the reading is `kb` converted to GB |
| Quota.SetQuotaReadsBack | manage-project-storage.py:104-117 | after `set_quota(gid, gb)`, `check_quota(gid)` returns `gb` |
| ProjectStorage.Capacity | manage-project-storage.py:135-137 | the applied capacity is `max(1, total)` |
| ProjectStorage.BuildGidTable | manage-project-storage.py:126-129 | the loop over the system groups builds the specified gid table |
| ProjectStorage.GidTableNames | manage-project-storage.py:126-129 | the gid table knows exactly the system group names |
| ProjectStorage.GidTableLastGid | manage-project-storage.py:128-129 | a name listed more than once gets the gid of its last entry |
| ProjectStorage.StorageHost.CheckQuota | manage-project-storage.py:104-111 | logs one quota query and returns the reading of the current listing |
| ProjectStorage.StorageHost.SetQuota | manage-project-storage.py:114-117 | logs one `setquota`, and the listing of the gid now shows the new hard limit |
| ProjectStorage.StorageHost.SetProject | manage-project-storage.py:120-122 | logs one `lfs project` command and changes nothing else |
| ProjectStorage.StorageHost.ReconcileQuota | manage-project-storage.py:142-145 | queries once, and writes the quota only when the reading differs from the capacity |
| ProjectStorage.StorageHost.ProvisionDir | manage-project-storage.py:146-153 | creates the directory and logs mkdir, chmod 2770, chown(-1, gid), `lfs project` and `setquota`, in that order |
| ProjectStorage.StorageHost.SynchronizeGroup | manage-project-storage.py:131-153 | one iteration of the group loop, equal to the specified step |
| ProjectStorage.StorageHost.SynchronizeStorage | manage-project-storage.py:125-153 | the whole loop, equal to the specified run over the groups in dictionary order, stopping at the first exception |
| ProjectStorage.ManageProjectStorage | manage-project-storage.py:176-189 | `main` after fetching: the grouping, then the synchronization of the grouped groups |
| ProjectStorage.RunFailureSticks | manage-project-storage.py:131-135 | an exception in one group's step ends the run, and later groups are not processed |
| ProjectStorage.DirModeIsOctal2770 | manage-project-storage.py:147-149 | the mode given to a new directory is set-group-id plus rwx for owner and group, octal 2770 |
| ProjectStorage.ExistingDirStep | manage-project-storage.py:142-145 | with the directory present, the step makes exactly one query. A failing reading ends the step with only that query added and the listings unchanged. Otherwise it adds exactly one `setquota` to the capacity iff the reading differs, including a missing reading. Directories stay unchanged, and afterwards the quota reads back as the capacity |
| ProjectStorage.MissingDirStep | manage-project-storage.py:146-153 | with the directory missing, the step logs exactly the five provisioning actions in order and makes no quota query. Afterwards the quota reads back as the capacity |
| ProjectStorage.ProvisionWrites | manage-project-storage.py:146-153 | provisioning adds the directory and appends exactly its five actions, none of them a query |
| ProjectStorage.StepFrame | manage-project-storage.py:131-153 | a step only appends to the log and only adds directories. An unknown group changes nothing, and other gids' quotas stay |
| ProjectStorage.StepWritesAtMostOnce | manage-project-storage.py:142-153 | a step issues at most one quota write |
| ProjectStorage.KnownNames | manage-project-storage.py:131-134 | the processed names are exactly the listed names that are system groups |
| ProjectStorage.UnknownGroupsIgnored | manage-project-storage.py:131-134 | a run equals the run over the known groups alone: unknown groups cause no query, no action and no exception |
| ProjectStorage.RunWritesAtMostOncePerGroup | manage-project-storage.py:131-153 | a run issues at most one quota write per known group |
| ProjectStorage.RunSettles | manage-project-storage.py:125-153 | after a completed run, every known group has its directory and a quota reading equal to its capacity |
| ProjectStorage.SettledRunQueriesOnly | manage-project-storage.py:142-145 | over settled groups, a run only appends one query per known group |
| ProjectStorage.SecondRunOnlyQueries | manage-project-storage.py:125-153 | idempotence: a second run after a completed one creates no directory and writes no quota |
| ProjectStorage.ManageTwiceOnlyQueries | manage-project-storage.py:176-189 | idempotence of the whole tool for unchanged registry data and system groups |
| HpcGrants.LookupSpec | hpc-grants.py:101-102 | `params[k]` finds exactly the keys present, with a value stored under them |
| HpcGrants.PutNewKey | hpc-grants.py:102 | assigning a new key appends its entry at the end of the ordered dictionary |
| HpcGrants.UpdateAllNewKeys | hpc-grants.py:105 | `update` with a dictionary whose keys are all new appends its entries in order |
| HpcGrants.WithoutSpec | hpc-grants.py:103 | after the deletions, what remains are entries of the input whose keys were not deleted. Every such entry is kept, and the keys stay distinct |
| HpcGrants.WithoutKeys | hpc-grants.py:103 | the keys left after the deletions are exactly the keys not deleted |
| HpcGrants.GroupedLength | hpc-grants.py:83 | `n` digits become `n + (n-1)/3` characters: one space per full group of three after the first |
| HpcGrants.GroupedSpaces | hpc-grants.py:83 | spaces stand exactly every fourth position from the right, so the leading group has 1-3 digits and every later one 3 |
| HpcGrants.GroupedRemoveSpaces | hpc-grants.py:83 | removing the spaces gives the digits back |
| HpcGrants.FormatInt | hpc-grants.py:83 | the result is the sign, then the grouped decimal digits of the magnitude. Without its spaces it is `str(n)` |
| HpcGrants.FormatNumber | hpc-grants.py:79-83 | an integer is shown in the grouped form `FormatInt`, and removing its spaces gives `str(value)`. A string value raises the `ValueError` of the `,` format |
| HpcGrants.FormatNumberExample | hpc-grants.py:83 | -1234 is shown as `-1 234` |
| HpcGrants.ProcessParameterValue | hpc-grants.py:86-93 | gives the formatted number, a space and the unit, or `ValueError` for a string value. A name without a unit gives `KeyError(name)`, and the number is formatted before the unit is looked up |
| HpcGrants.ParameterUnits | hpc-grants.py:87-93 | the unit is `h` for `hours` and `timelimit` and `GB` for `capacity`. Another name has no unit |
| HpcGrants.ProcessParameters | hpc-grants.py:96-106 | the loop over the priority keys on a copy of the parameters, then the `update`, returns exactly the specified dictionary |
| HpcGrants.UpdateWithRest | hpc-grants.py:104-105 | the closing `update` appends the remaining entries, because none of their keys is already present |
| HpcGrants.PrioritizedError | hpc-grants.py:100-102 | the priority loop fails exactly when a present priority key holds a string, with the `ValueError` of the `,` format |
| HpcGrants.PrioritizedKeys | hpc-grants.py:100-102 | the reordered part holds exactly the priority keys that are present |
| HpcGrants.PrioritizedValues | hpc-grants.py:102 | each present priority key holds its formatted value with its unit |
| HpcGrants.PrioritizedDistinct | hpc-grants.py:100-102 | the reordered part lists each key once |
| HpcGrants.ProcessedParametersKeyOrder | hpc-grants.py:98-105 | the keys come out as the present keys of `hours`, `timelimit`, `capacity` in that order, then the remaining keys in input order |
| HpcGrants.ProcessedParametersKeySet | hpc-grants.py:96-106 | the result has exactly the key set of the input, each key once |
| HpcGrants.ProcessedParametersValues | hpc-grants.py:100-105 | priority values are replaced by their formatted text, and every other value is carried over unchanged. An error occurs iff a priority value is a string |
| HpcGrants.StrLeTotal | hpc-grants.py:76 | Python's string `<=` compares any two strings |
| HpcGrants.StrLeTransitive | hpc-grants.py:76 | Python's string `<=` is transitive |
| HpcGrants.StrLeAntisymmetric | hpc-grants.py:76 | two strings each `<=` the other are equal |
| HpcGrants.StrLePrefix | hpc-grants.py:76 | a string sorts before every extension of it |
| HpcGrants.SortPermutation | hpc-grants.py:76 | sorting neither drops nor duplicates allocations: the result is a permutation |
| HpcGrants.SortSorted | hpc-grants.py:76 | with keys all numbers or all strings, the result is in ascending order of resource |
| HpcGrants.SortStable | hpc-grants.py:76 | allocations with the same resource keep their input order |
| HpcGrants.OrderAllocationsErrors | hpc-grants.py:75-76 | `KeyError('resource')` iff an allocation lacks the key. Otherwise `TypeError` iff numbers and strings are mixed, which takes at least two allocations |
| HpcGrants.OrderAllocationsSorts | hpc-grants.py:75-76 | a successful result is a permutation of the input, sorted by resource and stable |

## Left out

- Token generation, the HTTP request and JSON decoding in `get_data`: the registry data is a parameter. `helper_functions.py` is not part of this model.
- `execute`, `subprocess`, `os.mkdir`, `os.chmod`, `os.chown`, `os.path.isdir` and `grp.getgrall` are abstract state. That state is the directory set, the quota listings and the system group list, and each call is an entry in the action log. Failures of these calls (an `OSError`, a failing `lfs`) are not modelled, and the exit codes and stderr of `lfs` are ignored, as in the code.
- `lfs quota` output: after a `setquota`, the listing is modelled as the standard three-line report for an empty project. Before the first write, the listing is arbitrary text. Usage figures are not modelled.
- `debug`, `verbose`, docopt, `--version`, and all printing, including `print_grant_info` and the printing loop of hpc-grants: these have no effect on the state.
- The unused constant `MODE = 2770`. It is a decimal literal, octal 5322, so it differs from the mode the code applies. The applied mode is built from the `stat` bits and is octal 2770 (`DirModeIsOctal2770`).
- Grant and allocation records always carry `status`, `group`, `name` and `resource`, and every allocation carries a `parameters` dictionary. The `KeyError` a record missing one of these would raise in manage-project-storage is not modelled. This includes the `KeyError('parameters')` that `sum_storage` raises for a storage allocation without parameters. `allocations` is either absent or a list, and `status` is a string. The `TypeError` that a JSON `null` in either field would raise is not modelled. Parameter values in `sum_storage` are integers: float capacities are not modelled.
- `int()` is modelled for an optional sign followed by ASCII digits. Underscores and non-ASCII digits, which Python also accepts, are not modelled. `split()` is modelled with the ASCII and Unicode whitespace characters Python uses.
- KbToGb: models `int(kb / 1024 / 1024)` as truncating integer division. This is exact for readings of magnitude up to 2^53 kB. Above that, the float division rounds and is not modelled.
- FormatNumber: requires the name not to be `used hours`, whose `.2f` branch formats floats and is not modelled. The same holds for ProcessParameterValue and ProcessParameters, whose priority keys never take that branch.
- FormatNumber: JSON values are modelled as integers or strings. Floats, booleans, `None`, lists and objects as parameter values are not modelled.
- OrderAllocations: resources are modelled as integers or strings. Other JSON types, and the details of which comparison raises `TypeError` first, are not modelled. Mixed numbers and strings always raise `TypeError` here.
- ProcessParameters: requires distinct keys, which every Python dictionary has. The argument is a value, so the guarantee that the caller's dictionary is not modified (the `copy()`) holds by construction and has no separate lemma.
- SecondRunOnlyQueries: assumes the groups processed have distinct names and no two of them share a gid. Two groups with one gid share a Lustre project, and their quotas overwrite each other on every run. ManageTwiceOnlyQueries makes the same gid assumption; its names are distinct by construction.
- ProjectStorage.StorageHost.SynchronizeStorage: requires every key in the dictionary's order to have an entry, which holds for every dictionary `main` builds.
- The inner loop of `sum_storage` is a separate method, `AddGrantStorage`, that takes the running sum. The arithmetic and the exception are the same as in the nested loop.
