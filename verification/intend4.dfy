/**
 * The IntendedFor engine of `intend4/intend4.py`: for every selected subject,
 * and every session of that subject (or once, with no session), find the
 * images of one modality, find the single field-map sidecar that corrects
 * them, set its `IntendedFor` key to the images' subject-relative paths (or to
 * `[]` when removing), and rewrite the sidecar while keeping its permission bits.
 *
 * The BIDS layout index is an abstract `Layout` of query functions. The
 * filesystem is a `Disk` of permission modes and sidecar contents; reports to
 * standard error and completed rewrites are recorded in an event log. A Python
 * exception is a `Raised` outcome: nothing in the traversal catches one, so it
 * ends the whole run, leaving the world as it was at that moment.
 */
module Intend4 {
  import opened Wrappers
  import Strings
  import Sidecar

  const ImageExt: seq<string> := ["nii.gz", "nii"]
  const PhasediffSuffix: string := "phasediff"
  const RpeSuffix: string := "epi"
  const SidecarExt: string := "json"
  const SubjDirPrefix: string := "sub-"

  /** `ALLOWED_MODALITIES`; `intend4/__init__.py`, which defines it, is not part of
      this model, and the list is taken to be the two modalities the tests accept. */
  const AllowedModalities: seq<string> := ["bold", "dwi"]

  /** The mode `rewrite_sidecar` sets before writing, octal 640 (owner read/write, group read). */
  const WritableMode: nat := 6 * 64 + 4 * 8

  /** The exceptions that can escape the engine. */
  datatype Fault =
    | InvalidModality(allowed: seq<string>)   // ValueError from validate_modality
    | MalformedPath(path: string)             // TypeError from subjrelpath
    | InvalidDataset                          // RuntimeError when the layout cannot be built
    | StatFailed(path: string)                // os.stat on a missing file
    | ChmodFailed(path: string)               // os.chmod refused: the user does not own the file
    | DumpFailed(path: string)                // writing the JSON text failed partway

  // ---------------------------------------------------------------------------
  // Modality

  /** `validate_modality`: the modality itself when it is allowed, compared case-sensitively. */
  function ValidateModality(modality: string): (r: Result<string, Fault>)
    ensures r.Success? <==> modality in AllowedModalities
    ensures r.Success? ==> r.value == modality
    ensures r.Failure? ==> r.error == InvalidModality(AllowedModalities)
  {
    if modality in AllowedModalities then Success(modality)
    else Failure(InvalidModality(AllowedModalities))
  }

  /** `get_fieldmap_suffix`: bold images are corrected by a phase-difference map,
      every other modality by a reverse-phase-encoded `epi` map. */
  function FieldmapSuffix(modality: string): (r: string)
    ensures r == PhasediffSuffix <==> modality == "bold"
    ensures r == RpeSuffix <==> modality != "bold"
  {
    if modality == "bold" then PhasediffSuffix else RpeSuffix
  }

  // ---------------------------------------------------------------------------
  // Subject-relative paths

  /** `rest` is what follows the first `/` of `path`. */
  predicate AfterFirstSlash(path: string, rest: string) {
    var slash := |path| - |rest| - 1;
    0 <= slash && path[slash] == '/' && '/' !in path[..slash] && path[slash + 1..] == rest
  }

  /** `subjrelpath`: a path under a `sub-` directory loses its first component;
      any other path has no subject-relative form; a `sub-` name with no `/`
      at all raises. */
  function SubjRelPath(subjpath: string): (r: Result<Option<string>, Fault>)
    ensures !(SubjDirPrefix <= subjpath) ==> r == Success(None)
    ensures SubjDirPrefix <= subjpath && '/' !in subjpath ==> r == Failure(MalformedPath(subjpath))
    ensures SubjDirPrefix <= subjpath && '/' in subjpath ==>
              r.Success? && r.value.Some? && AfterFirstSlash(subjpath, r.value.value) &&
              |r.value.value| < |subjpath| - |SubjDirPrefix|
  {
    if SubjDirPrefix <= subjpath then
      var ndx := Strings.Find(subjpath, '/');
      if ndx != -1 then
        assert '/' !in SubjDirPrefix;
        assert subjpath[..|SubjDirPrefix|] == SubjDirPrefix;
        assert subjpath[ndx + 1..] == subjpath[|subjpath| - |subjpath[ndx + 1..]|..];
        Success(Some(subjpath[ndx + 1..]))
      else Failure(MalformedPath(subjpath))
    else Success(None)
  }

  /** Read the other way: the first `/` of a `sub-` path decides the result. */
  lemma SubjRelPathAt(subjpath: string, slash: int)
    requires SubjDirPrefix <= subjpath
    requires 0 <= slash < |subjpath| && subjpath[slash] == '/' && '/' !in subjpath[..slash]
    ensures SubjRelPath(subjpath) == Success(Some(subjpath[slash + 1..]))
  {
    Strings.FindAt(subjpath, '/', slash);
  }

  /** A path in a subject directory loses exactly that directory. */
  lemma SubjRelPathUnderSubject(id: string, rest: string)
    requires '/' !in id
    ensures SubjRelPath(SubjDirPrefix + id + "/" + rest) == Success(Some(rest))
  {
    var p := SubjDirPrefix + id + "/" + rest;
    var slash := |SubjDirPrefix + id|;
    assert p[..slash] == SubjDirPrefix + id;
    assert '/' !in SubjDirPrefix;
    SubjRelPathAt(p, slash);
    assert p[slash + 1..] == rest;
  }

  /** A `sub-` name with no directory part raises. */
  lemma SubjRelPathOfBareName(name: string)
    requires '/' !in name
    ensures SubjRelPath(SubjDirPrefix + name) == Failure(MalformedPath(SubjDirPrefix + name))
  {
    assert '/' !in SubjDirPrefix;
  }

  /** A path that does not start with `sub-` (a session directory, say) has no
      subject-relative form, whatever follows. */
  lemma SubjRelPathOutsideSubject(rest: string)
    ensures SubjRelPath("ses-" + rest) == Success(None)
  {
    assert ("ses-" + rest)[1] != SubjDirPrefix[1];
  }

  // ---------------------------------------------------------------------------
  // The dataset index

  /** A file the index knows: its path on disk, its path relative to the dataset
      root, and, for a JSON sidecar, its parsed content. */
  datatype BidsFile = BidsFile(path: string, relpath: string, dict: Sidecar.Dict)

  /** `layout.get(subject=…, session=…, suffix=…, extension=…)`. */
  datatype FileQuery = FileQuery(subject: string, session: Option<string>, suffix: string, extensions: seq<string>)

  /** The BIDS layout: its subjects, the sessions of each subject, and file queries. */
  datatype Layout = Layout(
    subjects: seq<string>,
    sessions: string -> seq<string>,
    get: FileQuery -> seq<BidsFile>)

  function ImageQuery(modality: string, subj: string, sess: Option<string>): FileQuery {
    FileQuery(subj, sess, modality, ImageExt)
  }

  function SidecarQuery(modality: string, subj: string, sess: Option<string>): FileQuery {
    FileQuery(subj, sess, FieldmapSuffix(modality), [SidecarExt])
  }

  /** The list comprehension of `get_image_paths`: one entry per file, in the
      index's order, `None` entries kept; the first malformed path raises. */
  function RelPaths(files: seq<BidsFile>): (r: Result<seq<Option<string>>, Fault>)
    ensures r.Success? <==> forall i :: 0 <= i < |files| ==> SubjRelPath(files[i].relpath).Success?
    ensures r.Success? ==> |r.value| == |files|
    ensures r.Success? ==> forall i :: 0 <= i < |files| ==> r.value[i] == SubjRelPath(files[i].relpath).value
    ensures r.Failure? ==> exists i :: FirstMalformed(files, i) && r.error == MalformedPath(files[i].relpath)
    decreases |files|
  {
    if |files| == 0 then Success([])
    else
      match SubjRelPath(files[0].relpath)
      case Failure(e) => Failure(e)
      case Success(p) =>
        match RelPaths(files[1..])
        case Failure(e) => Failure(e)
        case Success(ps) =>
          assert forall i :: 1 <= i < |files| ==> files[i] == files[1..][i - 1];
          Success([p] + ps)
  }

  /** `files[i]` is the first file whose path `SubjRelPath` refuses: the one the
      comprehension of `get_image_paths` raises on. */
  predicate FirstMalformed(files: seq<BidsFile>, i: int) {
    && 0 <= i < |files|
    && SubjRelPath(files[i].relpath).Failure?
    && forall j :: 0 <= j < i ==> SubjRelPath(files[j].relpath).Success?
  }

  /** `get_image_paths`: the subject-relative paths of the subject's (and session's)
      images, queried with the modality as file suffix. */
  function ImagePaths(modality: string, layout: Layout, subj: string, sess: Option<string>)
    : (r: Result<seq<Option<string>>, Fault>)
    ensures var files := layout.get(ImageQuery(modality, subj, sess));
            && (r.Success? ==> |r.value| == |files|)
            && (r.Success? ==> forall i :: 0 <= i < |files| ==> SubjRelPath(files[i].relpath) == Success(r.value[i]))
            && (r.Success? <==> forall i :: 0 <= i < |files| ==> SubjRelPath(files[i].relpath).Success?)
            && (r.Failure? ==> exists i :: FirstMalformed(files, i) && r.error == MalformedPath(files[i].relpath))
  {
    RelPaths(layout.get(ImageQuery(modality, subj, sess)))
  }

  // ---------------------------------------------------------------------------
  // The filesystem

  /** Permission modes and sidecar contents by path; `locked` holds the paths whose
      mode the user may not change (files owned by someone else), `failing` those
      whose JSON write breaks off partway (a full disk, an I/O error). */
  datatype Disk = Disk(modes: map<string, nat>, files: map<string, Sidecar.Dict>,
                       locked: set<string>, failing: set<string>)

  /** A sidecar that exists, whose mode can be changed, and whose write completes. */
  predicate Rewritable(disk: Disk, path: string) {
    path in disk.modes && path !in disk.locked && path !in disk.failing
  }

  /** What a run leaves behind besides the files: reports on standard error and
      completed rewrites, in order. */
  datatype Event =
    | MissingSidecar(suffix: string, subject: string, session: Option<string>)
    | AmbiguousSidecar(suffix: string, subject: string, session: Option<string>)
    | Rewrote(path: string)

  datatype World = World(disk: Disk, log: seq<Event>)

  /** A call that returned `value`, or one that raised `fault`; either way, the world after it. */
  datatype Outcome<T> = Normal(value: T, world: World) | Raised(fault: Fault, world: World)

  /** `rewrite_sidecar`: remember the mode, make the file writable, write the JSON,
      restore the mode. There is no `try`/`finally`: when the write raises, the
      file is left writable and no longer holds a parseable sidecar. */
  function RewriteSidecar(contents: Sidecar.Dict, sidecar: string, w: World): (r: Outcome<()>)
    ensures sidecar !in w.disk.modes ==> r == Raised(StatFailed(sidecar), w)
    ensures sidecar in w.disk.modes && sidecar in w.disk.locked ==> r == Raised(ChmodFailed(sidecar), w)
    ensures Rewritable(w.disk, sidecar) ==>
              r.Normal? &&
              r.world.disk == w.disk.(files := w.disk.files[sidecar := contents]) &&
              r.world.log == w.log + [Rewrote(sidecar)]
    ensures sidecar in w.disk.modes && sidecar !in w.disk.locked && sidecar in w.disk.failing ==>
              r == Raised(DumpFailed(sidecar),
                          World(w.disk.(modes := w.disk.modes[sidecar := WritableMode],
                                        files := w.disk.files - {sidecar}), w.log))
  {
    if sidecar !in w.disk.modes then Raised(StatFailed(sidecar), w)
    else if sidecar in w.disk.locked then Raised(ChmodFailed(sidecar), w)
    else
      var permissions := w.disk.modes[sidecar];
      var unlocked := w.disk.(modes := w.disk.modes[sidecar := WritableMode]);
      if sidecar in w.disk.failing then
        Raised(DumpFailed(sidecar), World(unlocked.(files := unlocked.files - {sidecar}), w.log))
      else
        var written := unlocked.(files := unlocked.files[sidecar := contents]);
        var restored := written.(modes := written.modes[sidecar := permissions]);
        assert restored.modes == w.disk.modes;
        Normal((), World(restored, w.log + [Rewrote(sidecar)]))
  }

  // ---------------------------------------------------------------------------
  // One unit of work: a subject, with or without a session

  /** `get_sidecar_and_modify`: the field-map sidecar must be unique; none or
      several is reported and the unit is skipped without touching the disk.
      The unique sidecar is rewritten, and what can go wrong while rewriting it
      escapes to the caller. */
  function GetSidecarAndModify(modality: string, remove: bool, layout: Layout, imagePaths: seq<Option<string>>,
                               subj: string, sess: Option<string>, w: World): (r: Outcome<()>)
    ensures var sidecars := layout.get(SidecarQuery(modality, subj, sess));
            var suffix := FieldmapSuffix(modality);
            && (|sidecars| == 0 ==> r == Normal((), World(w.disk, w.log + [MissingSidecar(suffix, subj, sess)])))
            && (|sidecars| > 1 ==> r == Normal((), World(w.disk, w.log + [AmbiguousSidecar(suffix, subj, sess)])))
    ensures var sidecars := layout.get(SidecarQuery(modality, subj, sess));
            |sidecars| == 1 ==>
              var path := sidecars[0].path;
              && (Rewritable(w.disk, path) ==>
                    r == Normal((), World(w.disk.(files := w.disk.files[path :=
                                            Sidecar.ModifyIntendedFor(imagePaths, sidecars[0].dict, remove)]),
                                          w.log + [Rewrote(path)])))
              && (path !in w.disk.modes ==> r == Raised(StatFailed(path), w))
              && (path in w.disk.modes && path in w.disk.locked ==> r == Raised(ChmodFailed(path), w))
              && (path in w.disk.modes && path !in w.disk.locked && path in w.disk.failing ==>
                    r == Raised(DumpFailed(path),
                                World(w.disk.(modes := w.disk.modes[path := WritableMode],
                                              files := w.disk.files - {path}), w.log)))
  {
    var suffix := FieldmapSuffix(modality);
    var sidecars := layout.get(SidecarQuery(modality, subj, sess));
    if |sidecars| < 1 then
      Normal((), World(w.disk, w.log + [MissingSidecar(suffix, subj, sess)]))
    else if |sidecars| > 1 then
      Normal((), World(w.disk, w.log + [AmbiguousSidecar(suffix, subj, sess)]))
    else
      var sidecar := sidecars[0];
      var modified := Sidecar.ModifyIntendedFor(imagePaths, sidecar.dict, remove);
      RewriteSidecar(modified, sidecar.path, w)
  }

  /** `update_fieldmap`: the sidecar is looked up only when the unit has images. */
  function UpdateFieldmap(modality: string, remove: bool, layout: Layout,
                          subj: string, sess: Option<string>, w: World): (r: Outcome<()>)
    ensures var images := ImagePaths(modality, layout, subj, sess);
            && (images.Failure? ==> r == Raised(images.error, w))
            && (images == Success([]) ==> r == Normal((), w))
            && (images.Success? && |images.value| > 0 ==>
                  r == GetSidecarAndModify(modality, remove, layout, images.value, subj, sess, w))
    ensures w.log <= r.world.log && |r.world.log| <= |w.log| + 1
    ensures r.Normal? ==> r.world.disk.modes == w.disk.modes
  {
    match ImagePaths(modality, layout, subj, sess)
    case Failure(e) => Raised(e, w)
    case Success(imagePaths) =>
      if |imagePaths| > 0 then GetSidecarAndModify(modality, remove, layout, imagePaths, subj, sess, w)
      else Normal((), w)
  }

  // ---------------------------------------------------------------------------
  // The traversal

  /** The units of work one subject contributes: one per session, or one without sessions. */
  function UnitCount(layout: Layout, subj: string): nat {
    var sessions := layout.sessions(subj);
    if |sessions| == 0 then 1 else |sessions|
  }

  function SumUnits(layout: Layout, subjects: seq<string>): nat
    decreases |subjects|
  {
    if |subjects| == 0 then 0 else UnitCount(layout, subjects[0]) + SumUnits(layout, subjects[1..])
  }

  /** One unit of work: a subject and, when sessions are in use, one of its sessions. */
  datatype Unit = Unit(subject: string, session: Option<string>)

  /** The units of a subject's sessions, one per session, in order. */
  function SessionUnits(subj: string, sessions: seq<string>): (r: seq<Unit>)
    ensures |r| == |sessions|
    ensures forall i :: 0 <= i < |r| ==> r[i] == Unit(subj, Some(sessions[i]))
    decreases |sessions|
  {
    if |sessions| == 0 then []
    else [Unit(subj, Some(sessions[0]))] + SessionUnits(subj, sessions[1..])
  }

  /** The units of one subject: its sessions, or the subject alone when it has none. */
  function SubjectUnits(layout: Layout, subj: string): (r: seq<Unit>)
    ensures |r| == UnitCount(layout, subj)
    ensures forall u :: u in r ==> u.subject == subj
    ensures |layout.sessions(subj)| == 0 <==> r == [Unit(subj, None)]
  {
    var sessions := layout.sessions(subj);
    if |sessions| == 0 then [Unit(subj, None)] else SessionUnits(subj, sessions)
  }

  /** The units of a list of subjects, subject by subject. */
  function Units(layout: Layout, subjects: seq<string>): (r: seq<Unit>)
    ensures |r| == SumUnits(layout, subjects)
    ensures forall u :: u in r ==> u.subject in subjects
    decreases |subjects|
  {
    if |subjects| == 0 then []
    else SubjectUnits(layout, subjects[0]) + Units(layout, subjects[1..])
  }

  /** The reference traversal: `update_fieldmap` on every unit in turn; the first
      exception ends it, and a completed run counts every unit. */
  function RunUnits(modality: string, remove: bool, layout: Layout, units: seq<Unit>, w: World): (r: Outcome<nat>)
    ensures r.Normal? ==> r.value == |units|
    ensures r.Normal? ==> r.world.disk.modes == w.disk.modes
    ensures w.log <= r.world.log
    ensures r.Normal? ==> |r.world.log| <= |w.log| + |units|
    decreases |units|
  {
    if |units| == 0 then Normal(0, w)
    else
      match UpdateFieldmap(modality, remove, layout, units[0].subject, units[0].session, w)
      case Raised(f, w1) => Raised(f, w1)
      case Normal(_, w1) =>
        match RunUnits(modality, remove, layout, units[1..], w1)
        case Raised(f, w2) => Raised(f, w2)
        case Normal(n, w2) => Normal(n + 1, w2)
  }

  /** Carry on with `rest` after a run that ended in `first`. */
  function Continue(modality: string, remove: bool, layout: Layout, first: Outcome<nat>, rest: seq<Unit>): Outcome<nat> {
    match first
    case Raised(f, w1) => Raised(f, w1)
    case Normal(n, w1) =>
      match RunUnits(modality, remove, layout, rest, w1)
      case Raised(f, w2) => Raised(f, w2)
      case Normal(m, w2) => Normal(n + m, w2)
  }

  /** Running two lists of units one after the other is running their concatenation. */
  lemma {:induction false} RunUnitsAppend(modality: string, remove: bool, layout: Layout,
                                          xs: seq<Unit>, ys: seq<Unit>, w: World)
    ensures RunUnits(modality, remove, layout, xs + ys, w)
            == Continue(modality, remove, layout, RunUnits(modality, remove, layout, xs, w), ys)
    decreases |xs|
  {
    if |xs| == 0 {
      assert xs + ys == ys;
    } else {
      var x := xs[0];
      assert (xs + ys)[0] == x;
      assert (xs + ys)[1..] == xs[1..] + ys;
      var u := UpdateFieldmap(modality, remove, layout, x.subject, x.session, w);
      if u.Raised? {
        assert RunUnits(modality, remove, layout, xs, w) == Raised(u.fault, u.world);
      } else {
        RunUnitsAppend(modality, remove, layout, xs[1..], ys, u.world);
      }
    }
  }

  /** The `for sess_num in sessions` loop of `do_single_subject`: `update_fieldmap`
      on every session, each counted whether or not it wrote anything. */
  function DoSessions(modality: string, remove: bool, layout: Layout, subj: string,
                      sessions: seq<string>, w: World): (r: Outcome<nat>)
    ensures r == RunUnits(modality, remove, layout, SessionUnits(subj, sessions), w)
    ensures r.Normal? ==> r.value == |sessions|
    ensures r.Normal? ==> r.world.disk.modes == w.disk.modes
    ensures w.log <= r.world.log
    ensures r.Normal? ==> |r.world.log| <= |w.log| + r.value
    decreases |sessions|
  {
    if |sessions| == 0 then Normal(0, w)
    else
      var units := SessionUnits(subj, sessions);
      assert units[0] == Unit(subj, Some(sessions[0])) && units[1..] == SessionUnits(subj, sessions[1..]);
      match UpdateFieldmap(modality, remove, layout, subj, Some(sessions[0]), w)
      case Raised(f, w1) => Raised(f, w1)
      case Normal(_, w1) =>
        match DoSessions(modality, remove, layout, subj, sessions[1..], w1)
        case Raised(f, w2) => Raised(f, w2)
        case Normal(n, w2) => Normal(n + 1, w2)
  }

  /** `do_single_subject`: every unit of the subject is visited, and the count is
      the number of units attempted. */
  function DoSingleSubject(modality: string, remove: bool, layout: Layout, subj: string, w: World): (r: Outcome<nat>)
    ensures r == RunUnits(modality, remove, layout, SubjectUnits(layout, subj), w)
    ensures r.Normal? ==> r.value == UnitCount(layout, subj)
    ensures r.Normal? ==> r.world.disk.modes == w.disk.modes
    ensures w.log <= r.world.log
    ensures r.Normal? ==> |r.world.log| <= |w.log| + r.value
  {
    var sessions := layout.sessions(subj);
    if |sessions| > 0 then DoSessions(modality, remove, layout, subj, sessions, w)
    else
      assert [Unit(subj, None)][1..] == [];
      match UpdateFieldmap(modality, remove, layout, subj, None, w)
      case Raised(f, w1) => Raised(f, w1)
      case Normal(_, w1) => Normal(1, w1)
  }

  /** The `for subj_id in selected_subjects` loop of `do_subjects`: every unit of
      every subject, in order. */
  function DoSubjectList(modality: string, remove: bool, layout: Layout, subjects: seq<string>, w: World): (r: Outcome<nat>)
    ensures r == RunUnits(modality, remove, layout, Units(layout, subjects), w)
    ensures r.Normal? ==> r.value == SumUnits(layout, subjects)
    ensures r.Normal? ==> r.world.disk.modes == w.disk.modes
    ensures w.log <= r.world.log
    ensures r.Normal? ==> |r.world.log| <= |w.log| + r.value
    decreases |subjects|
  {
    if |subjects| == 0 then Normal(0, w)
    else
      RunUnitsAppend(modality, remove, layout, SubjectUnits(layout, subjects[0]), Units(layout, subjects[1..]), w);
      match DoSingleSubject(modality, remove, layout, subjects[0], w)
      case Raised(f, w1) => Raised(f, w1)
      case Normal(n, w1) =>
        match DoSubjectList(modality, remove, layout, subjects[1..], w1)
        case Raised(f, w2) => Raised(f, w2)
        case Normal(m, w2) => Normal(n + m, w2)
  }

  /** The arguments `do_subjects` reads: the optional subject list and the removal flag. */
  datatype Args = Args(subjIds: Option<seq<string>>, remove: bool)

  /** The subjects a run visits: the given list, or every subject the layout knows. */
  function SelectedSubjects(args: Args, layout: Layout): seq<string> {
    args.subjIds.GetOr(layout.subjects)
  }

  /** `do_subjects`: `dataset` is the layout the index built, or `None` when
      building it failed, in which case the run stops before touching anything. */
  function DoSubjects(modality: string, args: Args, dataset: Option<Layout>, w: World): (r: Outcome<nat>)
    ensures dataset.None? ==> r == Raised(InvalidDataset, w)
    ensures dataset.Some? ==>
              r == RunUnits(modality, args.remove, dataset.value, Units(dataset.value, SelectedSubjects(args, dataset.value)), w)
    ensures r.Normal? ==> r.value == SumUnits(dataset.value, SelectedSubjects(args, dataset.value))
    ensures r.Normal? ==> r.world.disk.modes == w.disk.modes
    ensures w.log <= r.world.log
    ensures r.Normal? ==> |r.world.log| <= |w.log| + r.value
  {
    match dataset
    case None => Raised(InvalidDataset, w)
    case Some(layout) => DoSubjectList(modality, args.remove, layout, SelectedSubjects(args, layout), w)
  }

  /** Every selected subject is at least one unit of work. */
  lemma {:induction false} SumUnitsAtLeast(layout: Layout, subjects: seq<string>)
    ensures SumUnits(layout, subjects) >= |subjects|
    decreases |subjects|
  {
    if |subjects| > 0 {
      SumUnitsAtLeast(layout, subjects[1..]);
    }
  }

  /** A run that completes counts at least one unit for every subject it selected. */
  lemma DoSubjectsCountsEverySubject(modality: string, args: Args, dataset: Option<Layout>, w: World)
    ensures var r := DoSubjects(modality, args, dataset, w);
            r.Normal? ==> r.value >= |SelectedSubjects(args, dataset.value)|
  {
    if dataset.Some? {
      SumUnitsAtLeast(dataset.value, SelectedSubjects(args, dataset.value));
    }
  }
}
