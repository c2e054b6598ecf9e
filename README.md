# A verified model of the logic in the résumé build script

The repository builds a résumé inside Docker images with the doit task runner.
Its single script, `dodo.py`, is mostly glue around Docker, GitPython and the
filesystem. This project models the parts of it that carry their own logic,
and proves what they guarantee:

- the interpreter of the engine's build-status records
  (`analyze_and_print_image_building_status`);
- the line-buffering printer for container logs (`print_text`);
- the choice of unit for byte counts (`convert_bytes_to_human_readable`);
- the task- and image-name helpers and the version string
  (`get_task_name`, `get_cli_handy_string`, `get_cli_handy_task_name`,
  `construct_full_image_name`, `construct_tagged_full_image_name`,
  `get_version`, `get_current_branch`);
- `clean_image` and `run_command_in_container`, against a fake Docker
  engine.

The files are:

- `wrappers.dfy`: `Option` and `Result`.
- `strings.dfy`: Python's `str.replace`, `lower`, slicing and splitting on strings.
- `naming.dfy`: the name and version helpers.
- `byte_units.dfy`: the byte units.
- `build_status.dfy`: the status interpreter. It is a method with a loop, proved
  equal to the function `Run`.
- `line_printer.dfy`: `print_text`. It is a method with a loop, proved equal to
  the function `PrintTextModel`.
- `docker_engine.dfy`: the fake engine. It is a class holding the container and
  image store and the log of calls it received.
- `cleanup.dfy`: `clean_image`.
- `container_run.dfy`: `run_command_in_container`.

What the real daemon does is not visible to the script, so it becomes an input:

- the id of a new container is `FreshId`, which differs from every id already
  in the store;
- whether `create_container`, `start` or `wait` raises is a `Faults` value;
- what the log stream yields, and whether it raises after that, is a `Faults`
  value too;
- what the build response yields, and whether it raises after that, is an
  input of the status interpreter.

The removals `remove_container` and `remove_image` always succeed in the model
(see "## Left out").

Four behaviours of the code are easy to misread:

- Below 1 KB the unit word is always `Byte`. The code tests `0 == B > 1`, a
  chained comparison that no number satisfies, so `0 Bytes` is never printed.
- The command runs as the calling user when the key `"privileged"` is present
  in `host_config` (dodo.py:229). It does not depend on what the key maps to.
- The initial status `-1` is never returned. When `wait` does not complete, its
  exception propagates after the `finally` block (see
  `ContainerRun.ReturnsIffWaitCompleted`).
- `get_task_name` does not remove every `task_` from its result. One
  left-to-right pass can join two pieces into a new `task_`, as
  `Naming.TaskNameMayStillContainPattern` shows.

## Model

| member | source | states |
|---|---|---|
| Naming.GetTaskName | dodo.py:91-95 | the name never grows, and it is left unchanged exactly when `task_` does not occur in it |
| Naming.TaskNameOfTaskFunction | dodo.py:91-95 | the callable named `task_` + `n` gives the same task name as the text `n`; it is `n` itself when `n` has no `task_` |
| Naming.TaskNameMayStillContainPattern | dodo.py:95 | `tastask_k_` becomes `task_`: the single pass leaves an occurrence of the pattern in the result |
| Strings.Replace | dodo.py:95 | Python's left-to-right `str.replace`; a replacement as long as the pattern keeps the length |
| Strings.EraseNoLonger | dodo.py:95 | erasing a pattern with `replace` never lengthens the text |
| Strings.EraseChangesIffOccurs | dodo.py:95 | erasing a pattern changes the text exactly when the pattern occurs |
| Strings.ReplaceCharIsMap | dodo.py:99 | replacing one character by another maps each position on its own |
| Naming.GetCliHandyString | dodo.py:98-99 | same length; every `_` becomes `-`, and every other character stays |
| Naming.CliHandyStringIsIdempotent | dodo.py:98-99 | the result has no `_`, and a second application changes nothing |
| Naming.GetCliHandyTaskName | dodo.py:102-103 | the command-line name has no `_` and no `task_` |
| Naming.CliNameOfTaskFunction | dodo.py:102-103 | for `task_x`, with no `task_` in `x`, the command-line name is `x` with `-` for `_` |
| Strings.Lower | dodo.py:107 | `str.lower` on ASCII: same length, each upper-case letter lowered and every other character kept |
| Naming.ConstructFullImageName | dodo.py:106-107 | the full image name is `cv-` followed by the image name (the prefix `CV`, lower-cased) |
| Naming.GetCurrentBranch | dodo.py:35-39 | the CI variable, when set, is the branch; the lookup fails exactly when the variable is unset and `HEAD` is detached |
| Naming.GetVersion | dodo.py:42-50 | fails exactly when the branch lookup does; otherwise begins with the branch and a dash, and is as long as branch, date, at most 7 hash characters and two dashes |
| Naming.CiBranchTakesPrecedence | dodo.py:35-50 | with `CI_COMMIT_REF_NAME` set, the version starts with its value and does not depend on the checked-out branch |
| Naming.VersionFallsBackToCheckedOutBranch | dodo.py:35-39 | without the variable, the version uses the branch of `HEAD`, and fails exactly when `HEAD` is detached |
| Naming.VersionShape | dodo.py:42-50 | the version is `branch-date-hash7`, with the exact length and the positions of both dashes |
| Naming.VersionUsesShortHash | dodo.py:44-49 | two commits whose hashes agree in the first 7 characters give the same version |
| Strings.Take | dodo.py:49 | `s[:n]` has length `min(n, len(s))` and is a prefix of `s` |
| Naming.ConstructTaggedFullImageName | dodo.py:110-111 | fails exactly when the version does; otherwise starts with `cv-name:` and is as long as that and the version |
| Naming.TaggedNameSplitsIntoNameAndVersion | dodo.py:110-111 | for an image name without `:`, splitting the tagged name at its first `:` gives back the full image name and the version |
| Naming.TaggedNameLayout | dodo.py:106-111 | the tagged name is `cv-name:branch-date-hash7` |
| ByteUnits.UnitWord | dodo.py:145-146 | the word after a count below 1 KB is always `Byte` |
| ByteUnits.HumanReadable | dodo.py:137-154 | below 1024 the text ends with ` Byte`; otherwise it ends with the two-letter unit chosen by the brackets |
| ByteUnits.UnitOf | dodo.py:145-154 | the brackets are half-open: Byte exactly below 1024; a count reaches its unit's scale and, below TB, stays under 1024 of it |
| ByteUnits.MagnitudeInRange | dodo.py:147-154 | from 1 KB on, the whole part of `B / unit` is at least 1, and below 1024 for KB to GB; TB holds exactly the counts from 1024^4 up |
| ByteUnits.UnitMonotone | dodo.py:145-154 | a larger count never gets a smaller unit |
| ByteUnits.UnitIsCappedLog | dodo.py:140-154 | the unit's rank is the integer base-1024 logarithm of the count, capped at 4 (TB) |
| ByteUnits.LogBounds | dodo.py:140-154 | the integer base-1024 logarithm brackets the count between two powers of 1024 |
| BuildStatus.ProgressString | dodo.py:157-161 | when the first number's text has no `/`, splitting at the first `/` gives back the texts of the two counts |
| BuildStatus.Line | dodo.py:174-202 | the print of a record that lets the scan go on: the stream text verbatim; otherwise one line ending in a newline, starting with `id: ` when the status has a layer id, and the bare status otherwise |
| BuildStatus.Run | dodo.py:164-204 | one print per record looked at: all of them when the scan ends normally or the response raises at its end, at least one when it stops early; never True when the response raises |
| BuildStatus.RunContinues | dodo.py:172-197 | a record that neither ends nor fails the scan prints its line in front of what the rest prints |
| BuildStatus.AnalyzeAndPrintImageBuildingStatus | dodo.py:164-204 | the loop prints and returns (or raises) exactly what `Run` gives for the records and the response's exception |
| BuildStatus.RunLines | dodo.py:172-204 | with no record that stops the scan, every record is consumed and prints its own line, once and in order; the result is True unless the response raises |
| BuildStatus.RunWithoutStop | dodo.py:172-204 | with no error record and no missing `total`, it returns True (or passes on the response's exception) and prints one line per record, in order: the stream text verbatim, `id: status cur/total`, `id: status`, the bare status, or the record itself |
| BuildStatus.RunStopsAtFirstError | dodo.py:172-200 | at the first error record it prints the error and returns False; later records and the response's exception change nothing |
| BuildStatus.RunStopsAtMissingTotal | dodo.py:181-187 | a progress with `current` but no `total` prints the `======` diagnostic and raises `KeyError`; later records and the response's exception change nothing |
| BuildStatus.ReturnsTrueIffNoStop | dodo.py:172-204 | it returns True exactly when no record ends or fails the scan and the response does not raise |
| BuildStatus.ReturnsFalseIffErrorFirst | dodo.py:172-200 | it returns False exactly when an error record comes before any record that fails the scan |
| BuildStatus.SuccessfulBuildExample | dodo.py:174-197 | a log line followed by a layer status prints both lines and returns True |
| LinePrinter.Feed | dodo.py:208-217 | from a given buffer: at most one print per chunk plus the final flush; the generator's exception is passed on exactly when it comes |
| LinePrinter.PrintTextModel | dodo.py:207-217 | at most one print per chunk plus the final one; it completes exactly when the stream does not raise and no `IndexError` occurs |
| LinePrinter.PrintText | dodo.py:207-217 | the buffering loop makes exactly the print calls of `PrintTextModel` and ends the same way |
| LinePrinter.FeedPrintsLines | dodo.py:209-217 | every print call is a non-empty text ending in a newline |
| LinePrinter.FeedOutput | dodo.py:208-217 | from a buffer holding a partial line, the output is the buffer and the chunks, plus one newline when a partial line is left; on an exception, the output is a prefix of the input ending at a line end |
| LinePrinter.PrintTextOutput | dodo.py:207-217 | the output is every chunk joined, plus exactly one `\n` when the last line is partial; on an exception it is a line-ending prefix of the input |
| LinePrinter.FeedIndexError | dodo.py:210-211 | `line[-1]` fails exactly when an empty chunk arrives while the buffer is empty |
| LinePrinter.PrintTextIndexError | dodo.py:210-211 | `print_text` raises `IndexError` exactly when some empty chunk follows input that ends a line (or no input at all) |
| DockerEngine.ContainersMatching | dodo.py:279-282 | the listing holds exactly the containers whose name contains the filter |
| DockerEngine.ImagesNamed | dodo.py:287 | the listing holds exactly the images of that repository, and is no longer than the store |
| DockerEngine.DropContainers | dodo.py:284 | after removal, the store holds exactly the containers whose id was not removed |
| DockerEngine.DropImages | dodo.py:290 | after removal, the store holds exactly the images whose id was not removed |
| DockerEngine.DropContainersTwice | dodo.py:283-285 | removing one set of ids and then another is removing their union |
| DockerEngine.DropImagesTwice | dodo.py:289-290 | the same for images |
| DockerEngine.DropAppended | dodo.py:225-252 | removing the container that was just created restores the store to what it was |
| DockerEngine.FreshId | dodo.py:225-235 | a new container's id differs from every id in the store |
| DockerEngine.Engine.Containers | dodo.py:279-282 | `containers(all=True, filters=...)` returns the matching containers and logs the call |
| DockerEngine.Engine.Images | dodo.py:287 | `images(name=..., all=True)` returns the images of the name and logs the call |
| DockerEngine.Engine.RemoveContainerCall | dodo.py:284 | `remove_container` drops the container with that id and logs the call |
| DockerEngine.Engine.RemoveImageCall | dodo.py:290 | `remove_image` drops the image with that id and logs the call |
| DockerEngine.Engine.CreateContainerCall | dodo.py:225-233 | the call is logged either way; on success a container with a fresh id is added |
| DockerEngine.Engine.StartCall | dodo.py:243 | `start` is logged and reports whether it raised |
| DockerEngine.Engine.LogsCall | dodo.py:245-247 | `logs(stream=True, follow=True, stdout=True, stderr=True)` is logged and yields the container's output |
| DockerEngine.Engine.WaitCall | dodo.py:250 | `wait` is logged and gives the exit status, or nothing when it raises |
| Cleanup.Insert | dodo.py:288 | inserting one image gives one entry more, and the entries are the old ones and the new image |
| Cleanup.InsertPermutes | dodo.py:288 | as a multiset, the insertion adds exactly one copy of the new image |
| Cleanup.SortByCreated | dodo.py:288 | the sort keeps the length and the set of entries |
| Cleanup.SortPermutes | dodo.py:288 | the sort is a permutation of the listing: equal multisets |
| Cleanup.InsertSorted | dodo.py:288 | inserting into a sorted sequence keeps it sorted by `Created` |
| Cleanup.SortIsSorted | dodo.py:288 | the sort is ascending by `Created` |
| Cleanup.InsertLast | dodo.py:288 | an insertion changes the last entry only when the new image was created later |
| Cleanup.LatestIndex | dodo.py:288 | the index of the entry with the greatest `Created`; among ties, the last one listed |
| Cleanup.SortLastIsLatest | dodo.py:288 | the last entry after the stable sort is the latest-created image, the last listed among ties |
| Cleanup.SortDistinct | dodo.py:288 | sorting does not repeat an id |
| Cleanup.NamedDistinct | dodo.py:287 | listing by name does not repeat an id |
| Cleanup.AllButLastIds | dodo.py:288-290 | when no id repeats, dropping the last entry removes every other entry's id and keeps the last one's |
| Cleanup.ImagesToRemove | dodo.py:287-288 | from n images of the name it picks max(n-1, 0), all of them images of that name |
| Cleanup.RemoveContainers | dodo.py:283-285 | the container loop removes each listed id by force, logs each call, and prints `<id> container removed` and `print`'s newline each time |
| Cleanup.RemoveImages | dodo.py:289-291 | the image loop removes each given id by force, logs each call, and prints `<name> - <id> image removed` and `print`'s newline each time |
| Cleanup.CleanImageModel | dodo.py:276-291 | the corrected clean-up never raises, prints one line per removal call, keeps no matching container and adds nothing to the store |
| Cleanup.CleanImage | dodo.py:276-291 | the store, the call log and the printed lines after the clean-up are those of `CleanImageModel` |
| Cleanup.CleanRemovesMatchingContainers | dodo.py:279-285 | when ids are unique, a container stays exactly when its name does not match |
| Cleanup.CleanKeepsLatestImage | dodo.py:287-291 | from n images of the name it removes max(n-1, 0); with unique ids it keeps exactly the latest of them, and images of other names stay |
| Cleanup.OtherNamesNotRemoved | dodo.py:287-290 | no image of another name loses its id to the removal |
| Cleanup.OnlyLatestNotRemoved | dodo.py:288-290 | among the images of the name, exactly the latest one escapes removal |
| Cleanup.CleanImageAsWritten | dodo.py:276-291 | as written, it raises `AttributeError` exactly when some container matches, and then the store is untouched and nothing is printed |
| Cleanup.AsWrittenRaisesOnMatchingContainer | dodo.py:283-284 | as written, any matching container raises `AttributeError`; nothing is removed and nothing is printed |
| Cleanup.AsWrittenCounterexample | dodo.py:283-284 | one container named `cv-toollatex`: the code as written keeps it, and the corrected clean-up removes it |
| ContainerRun.UserFor | dodo.py:229 | the user is the caller's uid exactly when `"privileged"` is a key of `host_config`, and absent otherwise |
| ContainerRun.AfterCreate | dodo.py:237-252 | the block starts the container first and removes it last, and completes exactly when start, printing and wait succeed |
| ContainerRun.RunModel | dodo.py:220-254 | no call is made without `host_config`; a run that returns reports whether `wait` gave status 0 |
| ContainerRun.RunCreated | dodo.py:237-252 | the `try`/`finally` block removes the container on every path and makes the calls, prints and outcome of `AfterCreate` |
| ContainerRun.RunCommandInContainer | dodo.py:220-254 | the store ends unchanged, and the calls, prints and outcome are those of `RunModel` with the fresh id |
| ContainerRun.Removals | dodo.py:252 | it counts the removals of one container, and is zero exactly when no call removes it |
| ContainerRun.RemovedOnceAfterCreate | dodo.py:237-252 | after a successful create, the container is removed exactly once, with its volumes and by force, as the last call |
| ContainerRun.RemovalsSplit | dodo.py:252 | removals in a log followed by one more call add up |
| ContainerRun.NothingRemovedWithoutContainer | dodo.py:225-235 | with no `host_config`, or a failed create, nothing is started, removed or printed, and the call raises |
| ContainerRun.ReturnsIffWaitCompleted | dodo.py:237-254 | it returns exactly when create, start, printing and wait all succeed, and then returns whether the status is 0 |
| ContainerRun.UserOnlyWhenPrivileged | dodo.py:225-233 | the create call carries the image, the host configuration, `tty` and `stdin_open`, and the caller's uid exactly when `"privileged"` is a key |
| ContainerRun.PrintsTheLogs | dodo.py:243-248 | once started, a run prints exactly what `print_text` prints for the log stream; before that it prints nothing |

## Left out

- JSON decoding of the build response (dodo.py:173): records are inputs that are already decoded, with every field optional.
- UTF-8 decoding in `print_text`: one byte and one character are the same thing.
- Float rendering in `convert_bytes_to_human_readable` (`{0}` of a float and `{0:.2f}`): the number text is the parameter `magnitude`. Only the unit and its word are computed.
- `termcolor`, `os.getuid` and `os.getgid`: the uid is an input of `RunCommandInContainer`.
- `strftime`: the authored date is an input string.
- GitPython: the branch of `HEAD` is an optional input (absent for a detached `HEAD`).
- `start_docker_image_building`, `create_image_builder`, `create_image_build_task` and the other task factories: they pass arguments to Docker and doit and contain no logic of their own.
- The filesystem helpers (`create_dir_if_not_exists`, `delete_using_rglob`, `is_dir_modified`) and every `task_*` definition: I/O and task-runner plumbing.
- The Docker daemon. The fake engine treats these as single steps: a `name` filter is a substring test, `all=True` lists everything in the store, and removing an absent id does nothing.
- ContainerRun.RunCreated: `logs` raising before it yields is modelled as a log stream that raises with no chunks. Its exception type is not kept apart from the generator's.
- ContainerRun.RunCreated: `remove_container` in the `finally` block never raises here, so an exception that would replace a pending one is not modelled.
- BuildStatus.Run: the build response may raise only after the records it yields; an exception raised by `json.loads` on a malformed line is not modelled, since records arrive decoded.
- ByteUnits.UnitOf: `float(B)` raises `OverflowError` for counts of about 2^1024 and more; the model gives those counts TB.
- The fake engine's `remove_container` and `remove_image` never raise. The real daemon answers an id it does not hold with a not-found error, and that outcome is not modelled.
- Interrupting the process (Ctrl-C while the container runs): signals are not modelled.
- Cleanup.CleanImage: reads a container's id as `container["Id"]`, the corrected form. The line as written is in `CleanImageAsWritten` (see "Findings").

## Findings

| source | as written | input that shows it | evidently intended | confidence | as-written member | corrected member |
|---|---|---|---|---|---|---|
| dodo.py:283-285 | `container.id` on each entry returned by `APIClient.containers`, which are dictionaries | any container whose name contains `cv-<name>`, e.g. one named `cv-toollatex` for `clean_image("toollatex")`: `AttributeError` before anything is removed | `container["Id"]`, as the image loop does with `image["Id"]` | high, not executed | Cleanup.CleanImageAsWritten | Cleanup.CleanImage |
