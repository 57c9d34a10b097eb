# Valheim mod tooling, modelled in Dafny

The scripts manage third-party mods for a Valheim installation:

- `fetch_mods.py` reads a list of archive URLs from `env.yaml` and downloads each into a staging directory, `raw_mods`. A dry run only narrates what it would fetch.
- `unpack_raw_mods.py` extracts every archive in `raw_mods` into a sibling directory named after the archive's stem.
- `manage_mods.py` has three jobs. It backs up the game's plugin directory (`BepInEx/plugins`) and the four BepInEx loader files. It deletes the loader from the game. It moves the unpacked mods from `raw_mods` into the plugin directory.
- `term.py` colours the log messages.

The model has five modules:

- `Files` (`files.dfy`): directory entries (a file holds opaque bytes; a directory maps names to entries), Python's order on names, `sorted(iterdir())` as `SortedNames`, and `Path.stem`.
- `Term` (`term.dfy`): `stylize` and the five message styles. The colour switch is an explicit argument, computed by `ColorEnabled` from the `NO_COLOR` setting and the result of the TTY probe.
- `Unpack` (`unpack.dfy`): `unpack_all`. `Sweeps` specifies it as a fold over the sorted snapshot, and the method `UnpackAll` runs that loop over a `Folder` object. The archive library and `Path.unlink` are oracles carried in a `Tools` value.
- `Fetch` (`fetch.dfy`): the URL list (the structured reading of the loaded document and the fallback line scan), `basename_from_url` over a model of `urlsplit` and `PurePosixPath.name`, the per-URL download loop (the network is an oracle returning a whole body, a refusal or a cut-off body), and `fetch_and_unpack`.
- `Manage` (`manage.dfy`): the mod manager. Each command is first a function from a `Disk` snapshot (install root, plugin backup, loader backup, staging directory) to an `After` value: how the command ended, and the new snapshot. The class `ModManager` then holds those directories as fields, and its methods perform the same loops in place, each proved equal to its function. The plugin directory is not a separate field: it is `BepInEx/plugins` inside the install root, so backing up or deleting `BepInEx` carries the plugins with it, as on disk.

Python exceptions that the code does not catch are modelled as the outcome `Crash`, and the loop stops there. Examples: `rmtree` on a file, `iterdir` on a file, `mkdir` over a file, `copy2` when the file's own name inside the destination is a directory. `sys.exit(1)` is `Exit(1)`, and a normal return is `Done`. `Run` maps these to the process status 0, 1 and 1.

Some behaviours of the code that are easy to miss, all modelled as written:

- A dry run of `fetch_and_unpack` is not free of writes. With a config present it still creates `raw_mods` and still calls `unpack_all`, which creates target directories and extracts (`Fetch.DryRunStillExtracts`).
- An `env.yaml` that exists but cannot be read as UTF-8 text (a directory, or Latin-1 bytes with a non-ASCII byte) makes the `try` block raise, at `open` or inside `yaml.safe_load`. The fallback `read_text` runs inside the `except` block, so it raises again and nothing catches it. `fetch_and_unpack` raises before creating `raw_mods`, and `install` exits 1 without moving anything (`Fetch.FetchOutcome`, `Manage.InstallAll`).
- `fetch_and_unpack` returns 2 when `env.yaml` is missing, but `fetch_mods.main` discards that value, so the fetch tool itself exits 0. That `main` is outside the model; `FetchOutcome` returns 2.
- `stylize(text, "bold", False)` starts with the bold code, because "bold" is itself a key of the colour table (`Term.LeadIsBoldIff`).
- Copying a file onto an existing directory does not replace the directory. `copy2` writes into it, under the file's name (`Manage.Landed`).

## Model

| member | source | states |
|---|---|---|
| Term.ColorEnabled | scripts/term.py:10-16 | colour is off whenever NO_COLOR is set, whatever the terminal; otherwise it is on exactly when the TTY probe answered yes, and a probe that raised counts as no |
| Term.Ansi | scripts/term.py:21-31 | every table entry is an escape sequence; the bold attribute code belongs to the name "bold" and to no other name |
| Term.Lead | scripts/term.py:37-40 | the sequence before the text is the bold code (when asked for) followed by the colour's code; an unknown colour name adds nothing |
| Term.Stylize | scripts/term.py:34-41 | with colour off, or no colour name (None or empty), the text comes back unchanged; otherwise the result is the lead, the text intact, then the reset code |
| Term.StylizeKeepsText | scripts/term.py:34-41 | the original text always occurs as one contiguous piece of the result |
| Term.LeadIsBoldIff | scripts/term.py:37-40 | with a colour given, the escape sequence placed before the text (the lead) starts with the bold code exactly when bold was asked for or the colour name is "bold" |
| Term.HeaderStyle | scripts/term.py:44-45 | header is bold cyan when colour is on and the plain text otherwise |
| Term.ActionStyle | scripts/term.py:48-49 | action is green when colour is on and the plain text otherwise |
| Term.NoteStyle | scripts/term.py:52-53 | note is yellow when colour is on and the plain text otherwise |
| Term.WarnStyle | scripts/term.py:56-57 | warn is red when colour is on and the plain text otherwise |
| Term.MetaStyle | scripts/term.py:60-61 | meta is grey when colour is on and the plain text otherwise |
| Files.SortedNames | scripts/unpack_raw_mods.py:27 | the sorted snapshot lists every name of the directory exactly once, in strictly ascending order |
| Files.SortedListingUnique | scripts/manage_mods.py:151 | any strictly ascending list of exactly a directory's names is that snapshot, so the loops' order does not depend on the order the OS lists in |
| Files.SortedDistinct | scripts/manage_mods.py:151 | a sorted snapshot never repeats a name |
| Files.StemShape | scripts/unpack_raw_mods.py:30 | the stem is a prefix of the name; it is the whole name exactly when there is no suffix (no dot after the first character and before the last); otherwise it stops at the last dot |
| Files.StemBelow | scripts/unpack_raw_mods.py:27-31 | an archive's stem sorts before the archive |
| Fetch.TrimStart | scripts/fetch_mods.py:82 | lstrip removes only leading whitespace, and all of it |
| Fetch.TrimEnd | scripts/fetch_mods.py:82 | rstrip removes only trailing whitespace, and all of it |
| Fetch.Find | scripts/fetch_mods.py:84 | the index of the first occurrence of the separator, where `split("url:", 1)` cuts: -1 exactly when there is none, 0 when the string starts with it |
| Fetch.LineUrl | scripts/fetch_mods.py:82-85 | a line yields a URL exactly when its stripped form starts with "url:", and the URL is what follows that "url:", stripped |
| Fetch.HarvestMembers | scripts/fetch_mods.py:75-85 | the collected list is no longer than its input, and holds a value exactly when some input element yields it |
| Fetch.StructuredUrls | scripts/fetch_mods.py:75-78 | the structured reading holds the "url" value of exactly the mapping items that have one, in document order, at most one per item; splitting the list splits the result |
| Fetch.ScannedUrls | scripts/fetch_mods.py:81-85 | the fallback scan keeps exactly the URLs of lines that start with "url:" once stripped, never more URLs than lines |
| Fetch.ScannedUrlsAppend | scripts/fetch_mods.py:81-85 | scanning two blocks of lines is scanning each in turn: line order is kept |
| Fetch.DashedLineIgnored | scripts/fetch_mods.py:82-83 | a line whose stripped form starts with '-' contributes nothing |
| Fetch.DashedEntryExample | scripts/fetch_mods.py:82-83 | "- url: x" contributes nothing |
| Fetch.UrlLineValue | scripts/fetch_mods.py:81-85 | an indented "url:v" line yields v for any v without surrounding whitespace |
| Fetch.ReadUrls | scripts/fetch_mods.py:68-85 | the two loops build the structured URL list when loading worked, and the line-scan list when it raised |
| Fetch.FirstOf | scripts/fetch_mods.py:29 | the position of the first character from a set, or the length when there is none |
| Fetch.LastSlash | scripts/fetch_mods.py:29 | the position of the last '/', with no '/' after it |
| Fetch.PathName | scripts/fetch_mods.py:29 | the last path component never contains '/' and is never "." |
| Fetch.BasenameShape | scripts/fetch_mods.py:28-29 | the basename is the whole URL or one non-empty path component other than "."; it is empty only for the empty URL |
| Fetch.PathNameOfJoin | scripts/fetch_mods.py:29 | the name of ".../name" is name |
| Fetch.SchemeLengthOf | scripts/fetch_mods.py:29 | urlsplit takes off exactly "scheme:" when the scheme is valid |
| Fetch.UrlPathOfHostUrl | scripts/fetch_mods.py:29 | the path of "scheme://host/path" is "/path" |
| Fetch.BasenameOfFileUrl | scripts/fetch_mods.py:28-29 | for "scheme://host/dirs/name" the basename is the final segment, name |
| Fetch.BasenameOfBareHost | scripts/fetch_mods.py:28-29 | a URL with an empty path segment ("scheme://host") names itself |
| Fetch.ExampleArchiveName | scripts/fetch_mods.py:28-29 | "https://example.com/mods/foo.zip" is saved as "foo.zip" |
| Fetch.ReportSpec | scripts/fetch_mods.py:93-103 | the event for a URL: "would fetch" with its basename in a dry run; otherwise a save exactly when the whole body arrived and the basename can be opened for writing, a failure in every other case |
| Fetch.WrittenSpec | scripts/fetch_mods.py:32-51 | a download changes at most the URL's basename, never a directory, nothing in a dry run or when the request was refused, and stores the body when it arrived whole |
| Fetch.FetchAll | scripts/fetch_mods.py:93-103 | the loop over the URLs records exactly one outcome event per URL |
| Fetch.EventAt | scripts/fetch_mods.py:93-103 | the event of the URL at a given position is fixed by the URLs before it, whatever URLs follow |
| Fetch.EventsInOrder | scripts/fetch_mods.py:93-103 | one event per URL, in URL order, each computed from the staging directory as the earlier URLs left it |
| Fetch.DryRunNarrates | scripts/fetch_mods.py:93-96 | a dry run leaves the directory alone, never consults the network, and logs one "would fetch url -> basename" per URL, in order |
| Fetch.DryRunKeepsDir | scripts/fetch_mods.py:94-96 | the dry-run loop writes nothing |
| Fetch.DirsUntouched | scripts/fetch_mods.py:93-103 | the download loop never creates, removes or changes a directory |
| Fetch.EveryUrlReported | scripts/fetch_mods.py:97-103 | in a real run a failure never stops later URLs; each URL's outcome is a save exactly when its body arrived whole and its basename was writable at the start, and a failure otherwise |
| Fetch.OnlyBasenamesWritten | scripts/fetch_mods.py:32-51 | nothing is ever removed, and entries named by no URL's basename are unchanged |
| Fetch.FetchOutcome | scripts/fetch_mods.py:66-107 | without env.yaml: status 2, no directory created, nothing fetched or unpacked; with an env.yaml that cannot be read as text: an exception escapes, exactly in that case, and the staging directory is as before; with a readable one: status 0 and the staging directory exists, however many URLs failed |
| Fetch.DryRunKeepsArchives | scripts/fetch_mods.py:93-105 | a dry run keeps every staged file with the same content, because the unpack step runs without archive removal |
| Fetch.DryRunStillExtracts | scripts/fetch_mods.py:90-105 | a dry run still unpacks: a staged "a.zip" that can be extracted yields a new directory "a" |
| Fetch.FooArchiveInstalled | scripts/fetch_mods.py:66-107 | one configured URL "https://example.com/mods/foo.zip" fetched for real is saved as foo.zip, extracted into foo/, and foo.zip is kept |
| Fetch.FooFetched | scripts/fetch_mods.py:93-103 | that URL's body lands in the empty staging directory under "foo.zip", with one save event |
| Fetch.FooListed | scripts/fetch_mods.py:75-78 | a one-item list whose mapping has a "url" key yields exactly that URL |
| Fetch.FooSaved | scripts/fetch_mods.py:97-101 | the one download of that example writes its body under "foo.zip" and records a save |
| Fetch.FooUnpacked | scripts/unpack_raw_mods.py:27-39 | unpacking a staging directory that holds only foo.zip adds foo/ with the archive's contents and keeps foo.zip |
| Fetch.FetchUrl | scripts/fetch_mods.py:94-103 | one iteration of the imperative download loop changes the staging directory and the log exactly as one step of the specified loop |
| Fetch.FetchAndUnpack | scripts/fetch_mods.py:66-107 | the imperative fetch-and-unpack leaves exactly the status, events and staging directory of FetchOutcome, and reports a raise exactly when FetchOutcome does |
| Unpack.UnpackReport | scripts/unpack_raw_mods.py:19-57 | a missing directory gives 2 and records nothing; otherwise 0, however many entries were skipped |
| Unpack.UnpackAll | scripts/unpack_raw_mods.py:19-57 | the imperative loop leaves exactly the status, directory and lists of UnpackReport |
| Unpack.UnpackListing | scripts/unpack_raw_mods.py:24-45 | the imperative loop over the sorted snapshot leaves exactly the directory and lists of the specified sweep |
| Unpack.UnpackOne | scripts/unpack_raw_mods.py:28-45 | one iteration changes the directory and the lists exactly as one step of the sweep |
| Unpack.StepKeepsDirs | scripts/unpack_raw_mods.py:28-45 | a step never removes a directory or one of its children |
| Unpack.StepFiles | scripts/unpack_raw_mods.py:28-45 | a step never creates or rewrites a file, and deletes none except the current archive |
| Unpack.StepRecords | scripts/unpack_raw_mods.py:36-45 | a step records at most the current archive, paired with its stem, in each list |
| Unpack.DirsSurvive | scripts/unpack_raw_mods.py:28-29 | directories in the snapshot are never extracted or deleted |
| Unpack.NoFilesAppear | scripts/unpack_raw_mods.py:27-45 | every file present afterwards was present before, with the same bytes |
| Unpack.ArchiveKept | scripts/unpack_raw_mods.py:36-39 | a file is deleted only when removal was requested, it was extracted, and the delete worked; otherwise it stays unchanged |
| Unpack.Classification | scripts/unpack_raw_mods.py:27-45 | only files are recorded, in sorted order; every file ends up extracted or skipped; only a successful extraction counts as extracted; a file is in both lists only when the requested delete failed; each target is the stem |
| Unpack.Recorded | scripts/unpack_raw_mods.py:27-45 | the extracted list holds only files whose extraction succeeded; the skipped list only files; every file is in one of them, and in both only when the requested delete failed |
| Unpack.SuccessRecorded | scripts/unpack_raw_mods.py:30-39 | a file whose extraction succeeds and whose stem is not a file is recorded as extracted, and is also listed as skipped only when removal was asked for and the delete failed |
| Unpack.ExtractedIff | scripts/unpack_raw_mods.py:27-45 | without removal, an entry is recorded as extracted exactly when it is a file, its stem is not a file, and its extraction succeeds |
| Unpack.GoodArchiveFillsTarget | scripts/unpack_raw_mods.py:30-37 | a file whose extraction succeeds and whose stem is not a file ends with its target directory holding every top-level entry of the archive |
| Unpack.RecordOrder | scripts/unpack_raw_mods.py:27-37 | both lists follow the sorted snapshot order, and every target is its archive's stem |
| Unpack.BlockedTarget | scripts/unpack_raw_mods.py:30-45 | a file whose target is itself a file (an archive with no suffix, or a stem already taken by a file) is skipped and never extracted |
| Unpack.AtItsTurn | scripts/unpack_raw_mods.py:27 | when the loop reaches an entry of the snapshot, the entry is still as it was in the snapshot: targets created meanwhile do not disturb it |
| Unpack.TargetsMade | scripts/unpack_raw_mods.py:30-34 | every file's target directory exists afterwards, whether or not extraction succeeded, unless a file blocks it |
| Unpack.ExtractedIntoTarget | scripts/unpack_raw_mods.py:33-37 | after a successful extraction the target directory holds every top-level entry of the archive |
| Manage.ExitStatus | scripts/manage_mods.py:184-205 | a normal return exits 0, sys.exit(code) exits with that code, an uncaught exception exits 1 |
| Manage.SortedNamesDistinct | scripts/manage_mods.py:151 | a sorted listing has no repeated name |
| Manage.Landed | scripts/manage_mods.py:85-90 | after one copy, the destination name holds the source entry, except that a file copied onto a directory lands inside it under its own name, with that directory's other entries kept |
| Manage.CopyEachSpec | scripts/manage_mods.py:83-90 | a copy loop over distinct names completes exactly when no copy hits a conflict; each copied name then holds its landed entry; names not copied are untouched, whether or not the loop completed |
| Manage.CopyCrashSticks | scripts/manage_mods.py:83-90 | once a copy has raised, the later names change nothing |
| Manage.Dlls | scripts/manage_mods.py:63 | the matches of "*.dll" are exactly the listed names ending in ".dll" |
| Manage.DllsAppend | scripts/manage_mods.py:63 | matching distributes over concatenation, so the matches keep the listing's order |
| Manage.Lines | scripts/manage_mods.py:63-67 | one printed line per match, "> " followed by the stem |
| Manage.TopDllListedTwice | scripts/manage_mods.py:61-67 | every top-level DLL of the backup is printed twice |
| Manage.DllListed | scripts/manage_mods.py:61-67 | every DLL of the backup, at any depth, is printed as "> " and its stem |
| Manage.DeepHas | scripts/manage_mods.py:66 | the recursive glob finds the DLL at the end of any path of subdirectories |
| Manage.SubDllsHas | scripts/manage_mods.py:66 | the recursive listing includes everything the recursive glob finds in each subdirectory |
| Manage.DeepFound | scripts/manage_mods.py:66 | every name the recursive glob yields is a DLL reached by a path of subdirectories |
| Manage.ListingSound | scripts/manage_mods.py:61-67 | every printed line is "> " and the stem of a DLL found in the backup at some depth |
| Manage.WithPlugins | scripts/manage_mods.py:22 | setting the plugin directory inside the install root changes nothing outside BepInEx and makes the plugin directory exactly the given listing |
| Manage.WithPluginsKeepsLoader | scripts/manage_mods.py:22 | setting the plugin directory keeps every other child of a BepInEx directory (the loader's own files and folders), adding only "plugins" |
| Manage.EnsurePlugins | scripts/manage_mods.py:33-34 | creating BepInEx/plugins fails exactly when BepInEx or plugins exists as a file; otherwise it keeps the existing listing, or creates an empty one, and keeps BepInEx's other children |
| Manage.WithPluginsTwice | scripts/manage_mods.py:162 | setting the plugin directory twice keeps only the second setting, and it can then always be ensured |
| Manage.MoveChildClosed | scripts/manage_mods.py:161-171 | moving one child from the closed-form state adds that child to the gathered entries and removes it from staging |
| Manage.MoveKidsClosed | scripts/manage_mods.py:156-177 | the loop over one staging directory's children overlays them on the plugin directory and removes them from staging; it raises at the first child if the plugin directory cannot be created |
| Manage.MoveItemsClosed | scripts/manage_mods.py:151-177 | the whole move loop over the sorted staging listing has the closed form: the plugin directory overlaid with every gathered child, and each staging directory emptied |
| Manage.LaterWins | scripts/manage_mods.py:151-171 | on a name collision, the child of the later staging directory in sorted order is the one gathered |
| Manage.GatheredNames | scripts/manage_mods.py:151-171 | a name is gathered exactly when some staging directory has a child of that name |
| Manage.EmptiedOutside | scripts/manage_mods.py:151-156 | the move keeps every staging name, and entries it does not visit are unchanged |
| Manage.EmptiedNothing | scripts/manage_mods.py:151-156 | when no staging directory has children, staging is unchanged |
| Manage.EmptiedFiles | scripts/manage_mods.py:152-154 | loose top-level files in staging are ignored and left where they are |
| Manage.MoveKidsStuck | scripts/manage_mods.py:162 | once ensuring the plugin directory has raised, the remaining children are not moved |
| Manage.MoveItemsStuck | scripts/manage_mods.py:151-162 | once the move has raised, the remaining staging directories are not visited |
| Manage.PluginBackup | scripts/manage_mods.py:70-90 | a missing plugin directory exits 1 with nothing changed; a dry run changes nothing; the install root, loader backup and staging are never touched |
| Manage.PluginBackupMerges | scripts/manage_mods.py:75-90 | a real backup creates the backup directory and completes exactly when no plugin entry conflicts; every plugin name then holds the plugin's content; backup entries named by no plugin are unchanged |
| Manage.BepinBackup | scripts/manage_mods.py:37-58 | a dry run changes nothing; only the loader backup is ever written |
| Manage.SupportDistinct | scripts/manage_mods.py:24-29 | the four loader names are distinct |
| Manage.BepinBackupCopies | scripts/manage_mods.py:38-58 | a real loader backup handles exactly the four names: each one present in the install root is copied over its backup unless a conflict raises; a missing source and every other backup entry stay unchanged |
| Manage.CopyAll | scripts/manage_mods.py:96-98 | a missing plugin directory exits 1 with nothing changed; a dry run changes nothing; the install root and staging are never touched |
| Manage.RemoveAll | scripts/manage_mods.py:101-112 | the full backup runs first, and its outcome and backups are the command's; nothing is deleted in a dry run or unless the backup completed |
| Manage.RemoveDeletesBackedUp | scripts/manage_mods.py:101-112 | a completed real removal deletes exactly the four loader names that exist, with the plugin directory inside BepInEx, keeps every other entry, and each deleted name has already been copied to the backup |
| Manage.MoveAll | scripts/manage_mods.py:138-177 | without a staging directory, or in a dry run, nothing changes; the backups are never touched |
| Manage.MoveAllClosed | scripts/manage_mods.py:147-177 | with nothing to move nothing changes; when the plugin directory cannot be created the command raises before moving anything; otherwise the plugin directory becomes its old listing overlaid with every staged child, and each staging directory is emptied |
| Manage.MoveAllPlaces | scripts/manage_mods.py:151-171 | after a completed move every staged child sits at its name in the plugin directory; plugin entries named by no child, install entries outside BepInEx, the other children of BepInEx and loose staged files are unchanged |
| Manage.InstallIgnoresFetchStatus | scripts/manage_mods.py:133-135 | a missing env.yaml makes the fetch return 2, and the move still runs over the staging directory as it was |
| Manage.InstallAll | scripts/manage_mods.py:133-135 | an exception escaping `fetch_and_unpack` (an unreadable env.yaml) ends the install before the move, with nothing changed and exit status 1 |
| Manage.DryInstallKeepsGame | scripts/manage_mods.py:133-135 | a dry-run install leaves the game and both backups unchanged; it completes for every config except an unreadable env.yaml, where it raises |
| Manage.RunCommand | scripts/manage_mods.py:180-205 | the fetch command changes nothing and completes; every command except install changes nothing in a dry run |
| Manage.CopyOne | scripts/manage_mods.py:85-90 | one copy fails exactly on a conflict, and then changes nothing; otherwise it stores the landed entry under the name |
| Manage.CopyNames | scripts/manage_mods.py:83-90 | the imperative copy loop leaves the destination and the completion flag of the specified copy fold |
| Manage.EmitLines | scripts/manage_mods.py:63-67 | the print loop prints exactly the specified lines |
| Manage.DeleteNames | scripts/manage_mods.py:103-112 | the deletion loop removes exactly the listed names and skips absent ones |
| Manage.ModManager.PrintMods | scripts/manage_mods.py:61-67 | prints the backup's listing: the top-level matches, then the recursive ones |
| Manage.ModManager.CopyPluginMods | scripts/manage_mods.py:70-93 | the new state and outcome are those of PluginBackup; when it completes, the printed lines are the listing of the new backup |
| Manage.ModManager.CopyBepinex | scripts/manage_mods.py:37-58 | the new state and outcome are those of BepinBackup |
| Manage.ModManager.CopyMods | scripts/manage_mods.py:96-98 | the new state and outcome are those of CopyAll |
| Manage.ModManager.RemoveMods | scripts/manage_mods.py:101-112 | the new state and outcome are those of RemoveAll |
| Manage.ModManager.MoveOne | scripts/manage_mods.py:157-171 | moving one child ensures the plugin directory, replaces whatever held the child's name there, and takes the child out of staging, as one step of the move fold |
| Manage.ModManager.MoveChildren | scripts/manage_mods.py:156-177 | the inner loop moves one staging directory's children as the move fold specifies |
| Manage.ModManager.MoveStaged | scripts/manage_mods.py:151-177 | the real move loop over the sorted staging listing leaves the install root and staging of the move fold |
| Manage.ModManager.MoveExtractedRawMods | scripts/manage_mods.py:138-177 | the new state and outcome are those of MoveAll |
| Manage.ModManager.InstallCmd | scripts/manage_mods.py:133-135 | fetch, unpack and move leave the state and outcome of InstallAll |
| Manage.ModManager.Run | scripts/manage_mods.py:184-205 | main's dispatch leaves the state of RunCommand and returns its exit status |

## Left out

- HTTP downloading (`requests.get`, `urllib.request.urlopen`) is an oracle `net` that returns a whole body, a refusal before the file is opened, or a body cut off after it was opened. `_HAS_REQUESTS` picks between two clients that behave alike in this model.
- The network oracle `net` answers by URL, so a URL listed twice gets the same outcome both times; a transient failure followed by a success on a retry is not modelled.
- `yaml.safe_load` is not modelled. Its result is given as a `Loaded` value: a list of items, where a mapping has `str()`-rendered values, a non-list document, or a raise.
- `shutil.unpack_archive` is an oracle giving, per file, an unsupported format, another failure, or the target directory's top-level entries, under the names the archive wrote, as they stand after extraction. A nested directory the archive merges into an existing one is therefore carried whole by the oracle. Partial output from a failed extraction is not modelled.
- `logging` output of the download loop is not modelled as lines. The per-URL "Fetching {url}" and "-> {name}" lines and the traceback of a failure are left out. A `Fetch.Event` records each URL's outcome: `Saved` stands for a download that logged no failure, and `Failed` for one that logged "Failed to download".
- The internals of `shutil.copytree`, `rmtree` and `copy2` are not modelled: a copied entry is a whole value. Metadata copied by `copy2` is not modelled.
- The cross-device fallback when `Path.replace` fails (scripts/manage_mods.py:172-177) is not modelled: every move is modelled as a rename.
- `argparse`, `logging` output and the `main` functions of `fetch_mods.py` and `unpack_raw_mods.py` are left out. `fetch_mods.main` discards the status of `fetch_and_unpack`. The mod manager's `print` output is returned as a list of lines instead of being printed.
- `reinstall` (scripts/manage_mods.py:115-130) is left out: `main` never calls it.
- Fixed absolute paths, `Path.home()` and `__file__` are replaced by the model's fields. Missing intermediate parents (`~/val`) are assumed creatable.
- The backup directories and the staging directory are assumed to be absent or directories. The case where one of them exists as a file is not modelled.
- A missing install root behaves as an empty one.
- Concurrency and other processes changing the directories during a run are not modelled.
- Files.SortedNames: `iterdir` order is unspecified. The model uses sorted order wherever the code iterates `iterdir()` without sorting (copy loops, the inner move loop, the recursive glob). This affects only where a raise interrupts a loop, the order of the top-level `glob("*.dll")` block, and the order of `rglob`'s output.
- Fetch.BasenameFromUrl: the model skips two steps of `urlsplit`. It does not strip leading C0 control characters and spaces, and it does not delete tab, CR and LF. Netloc validation is not modelled either, so a URL such as `"http://[::1/x"` has a basename in the model where `urlsplit` raises `ValueError`. In a dry run that call (scripts/fetch_mods.py:95) is outside the `try`, so the source ends the whole run with the exception while the model narrates the URL and goes on. In a real run the source logs that URL as failed before the network is consulted, while the model's `Report` can record it as saved. `PurePosixPath.name` is modelled for '/'-separated paths only.
- Fetch.Writable: a basename containing '/' is taken as never openable, although it could be opened if matching subdirectories existed in the staging directory.
- Files.Stem: `Path.stem` is modelled on a single path component, with the suffix rule "last dot, neither first nor last character".
- Manage.IsDll: the glob match is case-sensitive, as on POSIX. Hidden files are matched like any other name.
- Term.ColorEnabled: the environment lookup and `isatty` are inputs, computed once as in the source. The module-level constant is an explicit argument.
