/**
 * The earlier engine of `intend4/intended4.py`: the same pipeline, but for
 * bold images and phase-difference field maps only, and without a removal
 * mode. Each operation is modelled from its own source and then proved to
 * behave exactly as the later engine of `Intend4` does for modality `bold`
 * with removal off.
 */
module Intended4 {
  import opened Wrappers
  import Strings
  import Sidecar
  import Intend4

  const ImageExt: seq<string> := ["nii.gz", "nii"]
  const PhasediffExt: string := "json"
  const PhasediffSuffix: string := "phasediff"
  const SubjDirPrefix: string := "sub-"

  /** `subjrelpath`, which takes the index's file object and reads its `relpath`. */
  function SubjRelPath(bidsFile: Intend4.BidsFile): (r: Result<Option<string>, Intend4.Fault>)
    ensures r == Intend4.SubjRelPath(bidsFile.relpath)
  {
    var relpath := bidsFile.relpath;
    if SubjDirPrefix <= relpath then
      var ndx := Strings.Find(relpath, '/');
      if ndx != -1 then Success(Some(relpath[ndx + 1..]))
      else Failure(Intend4.MalformedPath(relpath))
    else Success(None)
  }

  /** The list comprehension of `get_fmri_image_paths`. */
  function FmriRelPaths(files: seq<Intend4.BidsFile>): (r: Result<seq<Option<string>>, Intend4.Fault>)
    ensures r == Intend4.RelPaths(files)
    decreases |files|
  {
    if |files| == 0 then Success([])
    else
      match SubjRelPath(files[0])
      case Failure(e) => Failure(e)
      case Success(p) =>
        match FmriRelPaths(files[1..])
        case Failure(e) => Failure(e)
        case Success(ps) => Success([p] + ps)
  }

  /** `get_fmri_image_paths`: the images are always queried with suffix `bold`,
      and every matched file gives one entry. */
  function GetFmriImagePaths(layout: Intend4.Layout, subj: string, sess: Option<string>)
    : (r: Result<seq<Option<string>>, Intend4.Fault>)
    ensures r.Success? ==> |r.value| == |layout.get(Intend4.FileQuery(subj, sess, "bold", ImageExt))|
    ensures r == Intend4.ImagePaths("bold", layout, subj, sess)
  {
    FmriRelPaths(layout.get(Intend4.FileQuery(subj, sess, "bold", ImageExt)))
  }

  /** `create_intended_for`: `IntendedFor` set to the image paths, every other key
      kept, keys sorted. */
  function CreateIntendedFor(fmriImagePaths: seq<Option<string>>, pdSidecar: Intend4.BidsFile): (r: Sidecar.Dict)
    ensures Sidecar.SortedKeys(r)
    ensures Sidecar.Keys(r) == Sidecar.Keys(pdSidecar.dict) + {Sidecar.IntendedFor}
    ensures Sidecar.Lookup(r, Sidecar.IntendedFor) == Some(Sidecar.PathList(fmriImagePaths))
    ensures forall k :: k != Sidecar.IntendedFor ==> Sidecar.Lookup(r, k) == Sidecar.Lookup(pdSidecar.dict, k)
    ensures r == Sidecar.ModifyIntendedFor(fmriImagePaths, pdSidecar.dict, false)
  {
    var pdDict := pdSidecar.dict;
    var updated := Sidecar.Assign(pdDict, Sidecar.IntendedFor, Sidecar.PathList(fmriImagePaths));
    Sidecar.AssignDistinct(pdDict, Sidecar.IntendedFor, Sidecar.PathList(fmriImagePaths));
    assert Sidecar.Sort(updated) == Sidecar.ModifyIntendedFor(fmriImagePaths, pdDict, false);
    Sidecar.Sort(updated)
  }

  /** `write_intended_for`: the same four steps as `rewrite_sidecar`, with the same
      lack of `try`/`finally`. */
  function WriteIntendedFor(intendedForDict: Sidecar.Dict, pdSidecar: Intend4.BidsFile, w: Intend4.World)
    : (r: Intend4.Outcome<()>)
    ensures r == Intend4.RewriteSidecar(intendedForDict, pdSidecar.path, w)
    ensures Intend4.Rewritable(w.disk, pdSidecar.path) ==>
              r.Normal? &&
              r.world.disk == w.disk.(files := w.disk.files[pdSidecar.path := intendedForDict]) &&
              r.world.log == w.log + [Intend4.Rewrote(pdSidecar.path)]
    ensures pdSidecar.path !in w.disk.modes || pdSidecar.path in w.disk.locked ==> r.Raised? && r.world == w
    ensures pdSidecar.path in w.disk.modes && pdSidecar.path !in w.disk.locked && pdSidecar.path in w.disk.failing ==>
              r.Raised? && r.world.disk.modes == w.disk.modes[pdSidecar.path := Intend4.WritableMode] &&
              r.world.log == w.log
  {
    Intend4.RewriteSidecar(intendedForDict, pdSidecar.path, w)
  }

  /** `get_sidecar_and_insert`: the phasediff sidecar must be unique; none or several
      is reported and nothing is written. */
  function GetSidecarAndInsert(layout: Intend4.Layout, fmriImagePaths: seq<Option<string>>,
                               subj: string, sess: Option<string>, w: Intend4.World): (r: Intend4.Outcome<()>)
    ensures var pdSidecars := layout.get(Intend4.FileQuery(subj, sess, PhasediffSuffix, [PhasediffExt]));
            |pdSidecars| != 1 ==> r.Normal? && r.world.disk == w.disk && |r.world.log| == |w.log| + 1
    ensures r == Intend4.GetSidecarAndModify("bold", false, layout, fmriImagePaths, subj, sess, w)
  {
    var pdSidecars := layout.get(Intend4.FileQuery(subj, sess, PhasediffSuffix, [PhasediffExt]));
    if |pdSidecars| < 1 then
      Intend4.Normal((), Intend4.World(w.disk, w.log + [Intend4.MissingSidecar(PhasediffSuffix, subj, sess)]))
    else if |pdSidecars| > 1 then
      Intend4.Normal((), Intend4.World(w.disk, w.log + [Intend4.AmbiguousSidecar(PhasediffSuffix, subj, sess)]))
    else
      var pdSidecar := pdSidecars[0];
      var intendedForDict := CreateIntendedFor(fmriImagePaths, pdSidecar);
      WriteIntendedFor(intendedForDict, pdSidecar, w)
  }

  /** `update_phasediff_fmaps`: no bold images means no sidecar lookup at all. */
  function UpdatePhasediffFmaps(layout: Intend4.Layout, subj: string, sess: Option<string>, w: Intend4.World)
    : (r: Intend4.Outcome<()>)
    ensures GetFmriImagePaths(layout, subj, sess) == Success([]) ==> r == Intend4.Normal((), w)
    ensures r == Intend4.UpdateFieldmap("bold", false, layout, subj, sess, w)
  {
    match GetFmriImagePaths(layout, subj, sess)
    case Failure(e) => Intend4.Raised(e, w)
    case Success(fmriImagePaths) =>
      if |fmriImagePaths| > 0 then GetSidecarAndInsert(layout, fmriImagePaths, subj, sess, w)
      else Intend4.Normal((), w)
  }
}
