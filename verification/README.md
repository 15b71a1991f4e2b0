# intend4 IntendedFor engine, modelled in Dafny

intend4 prepares a BIDS neuro-imaging dataset for susceptibility distortion
correction. For each selected subject, and for each session of that subject
(or once, when the subject has no sessions), it:

1. finds the images of one modality (`bold` or `dwi`);
2. finds the single field-map sidecar (a JSON file) that corrects them;
3. sets that sidecar's `IntendedFor` key to the images' paths relative to the
   subject directory, or to `[]` when asked to remove the links;
4. writes the sidecar back with its keys sorted, unlocking its permission bits
   for the write and restoring them afterwards.

The model covers:

- the current engine (`intend4/intend4.py`);
- the older bold-only engine (`intend4/intended4.py`), proved to behave exactly
  as the current engine does for `bold` without removal;
- the pure path predicates of `intend4/file_utils.py`.

Modules:

- `Wrappers`: `Option` and `Result`.
- `Strings`: the Python `str` operations the engine relies on. These are the
  `<` order used by `sorted`, `endswith`, one-character `find`/`rfind`, and
  `split`/`join` on one character.
- `Sidecar`: a JSON object as an association list with distinct keys, plus:
  - Python's `d[k] = v`;
  - `dict(sorted(d.items()))`;
  - `modify_intended_for`.
- `Intend4`: the current engine.
  - The BIDS index is an abstract `Layout`: its subjects, the sessions of each
    subject, and a file query.
  - The filesystem is a `Disk`: permission modes and sidecar contents by path,
    plus the paths whose mode the user may not change and the paths whose
    write breaks off.
  - The traversal is proved equal to a flat reference fold, `RunUnits`, that
    runs `update_fieldmap` on every (subject, session) unit in order.
  - Standard-error reports and completed rewrites are recorded in an event log.
  - A Python exception is a `Raised` outcome that ends the run.
- `Intended4`: the older engine.
- `FileUtils`: `file_utils.py` over an abstract `FsView`, which stands for
  `isdir`, `isfile` and `access`.
- `Scenarios`: the repository tests' cases, and whole runs on small datasets.

The model follows the code as written, including:

- `rewrite_sidecar` has no `try`/`finally`. When the JSON write raises, the
  original mode is not restored: the file is left at octal 640
  (`Scenarios.RunLeavesModeOnFailure`).
- `rewrite_sidecar` changes the mode before writing. On a file the user does
  not own, that change raises before anything is written, and the run ends.
- `do_single_subject` counts every unit of work it attempts. That includes
  units with no images, a missing sidecar or several sidecars, not only units
  whose sidecar was rewritten.
- `get_image_paths` keeps a `None` entry for an image outside any subject
  directory. It does not filter such entries out.

## Model

| member | source | states |
|---|---|---|
| Strings.LessTransitive | intend4/intend4.py:127 | the string order `sorted` uses is transitive |
| Strings.LessTotal | intend4/intend4.py:127 | two different strings are always ordered, so sorting keys is deterministic |
| Strings.Find | intend4/intend4.py:165 | `find` gives -1 exactly when the character is absent, else its first index |
| Strings.FindAt | intend4/intend4.py:165-167 | an index holding the character with none before it is what `find` reports |
| Strings.RFind | intend4/file_utils.py:22 | `rfind` gives -1 exactly when the character is absent, else an index holding it with every other occurrence before it |
| Strings.RFindAt | intend4/file_utils.py:22 | an index holding the character with none after it is what `rfind` reports |
| Strings.Split | intend4/file_utils.py:90 | `split` yields at least one piece, no piece holds the separator, and joining gives the input back |
| Strings.SplitJoin | intend4/file_utils.py:90 | splitting a joined list of separator-free pieces returns exactly those pieces |
| Sidecar.DistinctKeysMeans | intend4/intend4.py:126-127 | a dict has no key twice, read as all pairs of positions |
| Sidecar.LookupMeans | intend4/intend4.py:126 | a lookup finds `v` exactly when the entry is present, and nothing exactly when the key is absent |
| Sidecar.SortedKeysMeans | intend4/intend4.py:127 | adjacent sortedness means every earlier key is smaller than every later one |
| Sidecar.AssignLookup | intend4/intend4.py:126 | after `d[k] = v`, `k` maps to `v` and every other key is unchanged |
| Sidecar.AssignKeys | intend4/intend4.py:126 | `d[k] = v` adds `k` to the keys and nothing else |
| Sidecar.AssignDistinct | intend4/intend4.py:126 | `d[k] = v` keeps the keys distinct |
| Sidecar.Insert | intend4/intend4.py:127 | inserting into a sorted list keeps it sorted and adds exactly the one entry |
| Sidecar.Sort | intend4/intend4.py:127 | the items come out sorted by key, as a permutation of the input |
| Sidecar.SortedUnique | intend4/intend4.py:127 | two sorted permutations of the same entries are equal, so `sorted` has only one possible result |
| Sidecar.ModifyIntendedFor | intend4/intend4.py:119-128 | keys are the input's plus `IntendedFor`, which holds `[]` when removing and the image paths otherwise; every other key keeps its value; the keys come out sorted |
| Sidecar.ModifyIntendedForIdempotent | intend4/intend4.py:119-128 | applying the modification twice gives the same dict as applying it once |
| Sidecar.ModifyIntendedForIgnoresOrder | intend4/intend4.py:126-127 | the result does not depend on the order of the sidecar's keys on disk |
| Intend4.ValidateModality | intend4/intend4.py:189-198 | accepted exactly when the modality is in the allowed list, compared case-sensitively; the value is unchanged; otherwise the error names the list |
| Intend4.FieldmapSuffix | intend4/intend4.py:69-74 | the suffix is `phasediff` exactly when the modality is `bold`, otherwise `epi` |
| Intend4.SubjRelPath | intend4/intend4.py:159-171 | three outcomes: no `sub-` prefix gives none; a prefix without `/` raises; otherwise the text after the first `/`, shorter than the input |
| Intend4.SubjRelPathAt | intend4/intend4.py:164-167 | the first `/` of a `sub-` path decides the result |
| Intend4.SubjRelPathUnderSubject | tests/intend4/test_intend4.py:128-131 | a path inside a subject directory loses exactly that directory |
| Intend4.SubjRelPathOfBareName | tests/intend4/test_intend4.py:139-142 | a `sub-` name without `/` raises |
| Intend4.SubjRelPathOutsideSubject | tests/intend4/test_intend4.py:134-136 | a path in a session directory has no subject-relative form |
| Intend4.ImagePaths | intend4/intend4.py:77-85 | succeeds exactly when every image the modality query matches has a well-formed path; then one entry per image, each that image's subject-relative path; a failure names the first malformed path in query order |
| Intend4.RelPaths | intend4/intend4.py:83-85 | succeeds exactly when every path is well formed; then one entry per file, in order, each that file's subject-relative path; a failure names the first malformed path, where the comprehension raises |
| Intend4.RewriteSidecar | intend4/intend4.py:146-151 | a missing file, or one whose mode the user may not change, raises with nothing changed; a completed write stores the contents and changes nothing else on disk; a broken write raises with the file at octal 640, no longer holding a sidecar, and every other file, mode and log entry as before |
| Intend4.GetSidecarAndModify | intend4/intend4.py:88-111 | no sidecar or several are reported with the disk untouched; a unique rewritable sidecar gets the modified contents, with every other file, every mode and the lock and failure sets kept; a unique sidecar that is missing or locked raises with nothing changed; one whose write breaks raises with only that file changed (mode 640, contents gone) |
| Intend4.UpdateFieldmap | intend4/intend4.py:174-186 | the sidecar is looked up only when there are images; at most one event is logged; a completed unit keeps every mode |
| Intend4.SessionUnits | intend4/intend4.py:60-61 | one unit per session, in session order |
| Intend4.SubjectUnits | intend4/intend4.py:58-65 | a subject's units are its sessions, or the subject alone exactly when it has none; their number is the subject's unit count |
| Intend4.Units | intend4/intend4.py:47-48 | the units of a subject list number the sum of the subjects' unit counts and belong to those subjects |
| Intend4.RunUnits | intend4/intend4.py:59-65 | the reference traversal: `update_fieldmap` on every unit in turn; a completed run counts every unit and keeps every mode |
| Intend4.RunUnitsAppend | intend4/intend4.py:47-48 | running two unit lists one after the other is running their concatenation |
| Intend4.DoSessions | intend4/intend4.py:59-62 | the session loop is the reference traversal of the subject's session units; a completed loop counts one unit per session |
| Intend4.DoSingleSubject | intend4/intend4.py:52-66 | the subject's visit is the reference traversal of its units; a completed visit counts its sessions, or one when it has none |
| Intend4.DoSubjectList | intend4/intend4.py:46-49 | the subject loop is the reference traversal of every unit of every subject, in order; a completed loop counts them all |
| Intend4.DoSubjects | intend4/intend4.py:23-49 | an unbuildable dataset raises before anything changes; otherwise the run is the reference traversal of the units of the given subjects, or of all the layout's subjects |
| Intend4.SumUnitsAtLeast | intend4/intend4.py:57-66 | every subject contributes at least one unit |
| Intend4.DoSubjectsCountsEverySubject | intend4/intend4.py:39-49 | a completed run counts at least one unit per selected subject |
| Intended4.SubjRelPath | intend4/intended4.py:110-123 | the older rule, applied to a file's `relpath`, agrees with the current one |
| Intended4.FmriRelPaths | intend4/intended4.py:58 | the older list comprehension agrees with the current one |
| Intended4.GetFmriImagePaths | intend4/intended4.py:56-58 | images are always queried with suffix `bold`; one entry per matched file; equal to the current engine at `bold` |
| Intended4.CreateIntendedFor | intend4/intended4.py:39-44 | `IntendedFor` holds the paths, every other key is kept, the keys are sorted; equal to the current modification without removal |
| Intended4.WriteIntendedFor | intend4/intended4.py:135-140 | equal to the current engine's rewrite: a completed write stores the dict and logs it; a missing or locked file raises with nothing changed; a broken write raises with the file at octal 640, no longer holding a sidecar, and every other file, mode and log entry as before |
| Intended4.GetSidecarAndInsert | intend4/intended4.py:65-82 | only a unique phasediff sidecar is written, and the rest are reported; equal to the current engine at `bold` without removal |
| Intended4.UpdatePhasediffFmaps | intend4/intended4.py:126-132 | no bold images means no sidecar step; equal to the current engine at `bold` without removal |
| FileUtils.EndsWithAny | intend4/file_utils.py:73 | `endswith` on a tuple holds exactly when some suffix matches |
| FileUtils.IsAcceptableFilename | intend4/file_utils.py:68-73 | `None` is refused; otherwise accepted exactly when the name ends with one of the extensions |
| FileUtils.AcceptableUnderPrefix | intend4/file_utils.py:73 | anything placed before an acceptable name keeps it acceptable |
| FileUtils.ShortNameRejected | intend4/file_utils.py:73 | a name shorter than every extension is refused |
| FileUtils.PathHasDots | intend4/file_utils.py:86-91 | `None` has no dots |
| FileUtils.PathHasDotsMeans | intend4/file_utils.py:86-91 | a path built from components has dots exactly when some component is `.` or `..` |
| FileUtils.SplitExt | intend4/file_utils.py:22 | root and extension concatenate to the path; the extension is empty or runs from the last `.`, with no separator; it is non-empty exactly when the final component has a `.` after a character other than `.` |
| FileUtils.ExtensionBeforeLastDot | intend4/file_utils.py:22 | a character other than `.` between the last separator and the last `.` makes an extension |
| FileUtils.NoExtensionBeforeLastDot | intend4/file_utils.py:22 | with only leading dots before the last `.`, or no `.` after the last separator, there is no extension |
| FileUtils.Basename | intend4/file_utils.py:22 | the basename has no separator, ends the path, and follows its last separator |
| FileUtils.FilenameCore | intend4/file_utils.py:18-22 | `''` for `None`; never holds a separator; the whole basename when it has no extension, otherwise the basename up to its last `.` |
| FileUtils.BasenameOfRoot | intend4/file_utils.py:22 | removing the extension does not move the last separator |
| FileUtils.GoodDirPath | intend4/file_utils.py:52-57 | accepted exactly for a given, readable directory that is also writable when asked |
| FileUtils.GoodFilePath | intend4/file_utils.py:60-65 | accepted exactly for a given, readable file that is also writable when asked |
| FileUtils.WriteableOnlyNarrows | intend4/file_utils.py:52-65 | asking for writability never admits more paths, and changes nothing on a writable path |
| FileUtils.ValidateFilePath | intend4/file_utils.py:94-96 | accepted exactly for a given path ending in one of the extensions that is a readable file, writable too when asked |
| FileUtils.KeptMembers | intend4/file_utils.py:99-107 | a path is kept exactly when it is in the input and passes one of the two checks |
| FileUtils.KeptIsSubsequence | intend4/file_utils.py:99-107 | the kept paths are the input with some deleted, order unchanged |
| FileUtils.ValidatePathStrings | intend4/file_utils.py:99-107 | the loop returns exactly the kept paths, no more than the input, each passing a check |
| Scenarios.SubjRelPathInSubject | tests/intend4/test_intend4.py:131 | `sub-5/pink_elephants` gives `pink_elephants` |
| Scenarios.SubjRelPathNotAPath | tests/intend4/test_intend4.py:139-142 | a `sub-` file name with no directory raises |
| Scenarios.SubjRelPathInSession | tests/intend4/test_intend4.py:134-136 | a session path is not subject-relative |
| Scenarios.ValidateModalityCases | tests/intend4/test_intend4.py:162-184 | `bold` and `dwi` pass; the empty string, `BAD argument` and the case variants fail |
| Scenarios.FilenameCoreOfNothing | tests/intend4/test_file_utils.py:39-40 | `None` and `''` give `''` |
| Scenarios.FilenameCoreOfDirectory | tests/intend4/test_file_utils.py:41 | `/tmp` gives `tmp` |
| Scenarios.FilenameCoreDropsExtension | tests/intend4/test_file_utils.py:43 | `/tmp/somefile.py` gives `somefile` |
| Scenarios.AcceptedFilenames | tests/intend4/test_file_utils.py:177-188 | names ending in `.tsv` or `.tsv.gz` are accepted, including a bare `.tsv` |
| Scenarios.RefusedFilenames | tests/intend4/test_file_utils.py:190-201 | `.`, `.tsvy`, `tsv.gz` and `None` are refused |
| Scenarios.PathHasDotsFindsParent | tests/intend4/test_file_utils.py:211 | a `..` component is found |
| Scenarios.PathHasDotsPlainPath | tests/intend4/test_file_utils.py:222 | `/usr/dummy` has no dots |
| Scenarios.PathHasDotsNothing | tests/intend4/test_file_utils.py:215-216 | `None` and `''` have no dots |
| Scenarios.ValidatePathStringsKeepsTextFiles | tests/intend4/test_file_utils.py:226-241 | readable directories and `.txt` files are kept in order; a `.tsv` file, a missing path, `''` and `None` are dropped |
| Scenarios.ImagesOfOne | intend4/intend4.py:77-85 | one image gives one subject-relative path |
| Scenarios.RunIsVisit | intend4/intend4.py:39-49 | a run over one subject is that subject's visit |
| Scenarios.RunWritesIntendedFor | intend4/intend4.py:88-111 | one image and one sidecar: count 1; `IntendedFor` holds the image path; other keys and all modes kept |
| Scenarios.RunReportsMissingSidecar | intend4/intend4.py:98-102 | no sidecar: reported, disk unchanged, still counted |
| Scenarios.RunReportsAmbiguousSidecar | intend4/intend4.py:103-107 | two sidecars: reported, disk unchanged, still counted |
| Scenarios.RunLeavesModeOnFailure | intend4/intend4.py:146-151 | a broken write raises and leaves the sidecar at octal 640 |
| Scenarios.UnitRewritesSidecar | intend4/intend4.py:174-186 | a unit with one image and one rewritable sidecar rewrites exactly that sidecar |
| Scenarios.RunTwoUnits | intend4/intend4.py:59-62 | two units that each complete make a completed run of two |
| Scenarios.TwoSessionsQueries | intend4/intend4.py:83-96 | the two-session layout answers each session's queries with that session's own image and sidecar |
| Scenarios.RunRewritesEverySession | intend4/intend4.py:52-62 | a subject with two sessions, each with an image and a sidecar: both sidecars are rewritten, in session order, and two units are counted |
| Scenarios.RunCountsSessions | intend4/intend4.py:57-62 | a subject with two sessions counts two units |

## Left out

- The BIDS index (pybids `BIDSLayout`). It is the abstract `Layout`. The
  `target='subject'` argument is not modelled, and neither are validation
  details beyond success or failure (`dataset` is `None` when building it
  raised).
- `sessions_for_subject` and `layout.get_subjects()` are the `Layout`'s
  `sessions` and `subjects` fields.
- `ALLOWED_MODALITIES` is taken to be `["bold", "dwi"]`, the values the tests
  accept. `intend4/__init__.py`, which defines it, is not part of this model.
- JSON text itself: `json.dump`, `output_JSON` and indentation. A written
  sidecar is its parsed contents. Non-string JSON values are opaque `Other`.
- `os.stat`/`os.chmod` mode bits beyond equality. The model stores the mode
  and restores it, but does not mask `st_mode` file-type bits.
- Verbose progress printing, `PROG_NAME`, `sys.tracebacklimit` and
  `has_session`: output and debugging only.
- The command-line front end (`intend4_cli.py`, `check_subj_nums`),
  `code/add_intended4.py`, `setup.py` and `config/`. They sit outside the
  engine.
- `copy_tree`, `full_path`, `gather_file_info`, `gen_file_paths`,
  `get_permissions`, `is_readable` and `is_writable` are operating-system
  wrappers. Readability and writability are `FsView` fields.
- `do_subjects` and `do_single_subject` of `intended4.py`. They are the same
  traversal without a count, and their layout is built with
  `validate=False`.
- FileUtils.GoodDirPath: returns `false` where Python returns the falsy
  argument itself (`None` or `''`). The two agree as truth values.
- FileUtils.GoodFilePath: returns `false` where Python returns the falsy
  argument itself, as above.
- Sidecar contents are read once, when the index is built (`BidsFile.dict`);
  `get_dict()` re-reads the file. The two differ only when a run rewrites a
  sidecar and later reads it again, as when a subject is listed twice. The
  second modification then gives the same contents either way
  (`Sidecar.ModifyIntendedForIdempotent`), because the same images are queried.
- `get_dict()` raising on a sidecar whose JSON is malformed or not an object is
  not modelled: every sidecar the index returns has parsed contents.
- `write_intended_for` passes the file object to `os.stat`/`os.chmod`. It is
  modelled as acting on the object's path.
