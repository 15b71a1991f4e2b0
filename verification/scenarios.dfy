/**
 * Concrete cases: the examples the repository's own tests use, and small
 * datasets run end to end through `Intend4.DoSubjects`.
 */
module Scenarios {
  import opened Wrappers
  import Strings
  import Sidecar
  import Intend4
  import FileUtils

  // ---------------------------------------------------------------------------
  // Subject-relative paths and modalities

  lemma SubjRelPathInSubject()
    ensures Intend4.SubjRelPath("sub-5/pink_elephants") == Success(Some("pink_elephants"))
  {
    Intend4.SubjRelPathUnderSubject("5", "pink_elephants");
    assert "sub-5/pink_elephants" == Intend4.SubjDirPrefix + "5" + "/" + "pink_elephants";
  }

  lemma SubjRelPathNotAPath()
    ensures Intend4.SubjRelPath("sub-188_bold.json") == Failure(Intend4.MalformedPath("sub-188_bold.json"))
  {
    Intend4.SubjRelPathOfBareName("188_bold.json");
    assert "sub-188_bold.json" == Intend4.SubjDirPrefix + "188_bold.json";
  }

  lemma SubjRelPathInSession()
    ensures Intend4.SubjRelPath("ses-ctbs/dwi") == Success(None)
  {
    Intend4.SubjRelPathOutsideSubject("ctbs/dwi");
    assert "ses-ctbs/dwi" == "ses-" + "ctbs/dwi";
  }

  lemma ValidateModalityCases()
    ensures Intend4.ValidateModality("bold") == Success("bold")
    ensures Intend4.ValidateModality("dwi") == Success("dwi")
    ensures Intend4.ValidateModality("").Failure?
    ensures Intend4.ValidateModality("BAD argument").Failure?
    ensures Intend4.ValidateModality("Dwi").Failure?
    ensures Intend4.ValidateModality("DWI").Failure?
    ensures Intend4.ValidateModality("BOLD").Failure?
    ensures Intend4.ValidateModality("Bold").Failure?
  {
  }

  // ---------------------------------------------------------------------------
  // File utilities

  lemma FilenameCoreOfNothing()
    ensures FileUtils.FilenameCore(None) == ""
    ensures FileUtils.FilenameCore(Some("")) == ""
  {
  }

  lemma FilenameCoreOfDirectory()
    ensures FileUtils.FilenameCore(Some("/tmp")) == "tmp"
  {
    var a := "/tmp";
    assert forall i | 0 <= i < |a| :: a[i] != '.';
    Strings.RFindAt(a, '/', 0);
    assert a[1..] == "tmp";
  }

  lemma FilenameCoreDropsExtension()
    ensures FileUtils.FilenameCore(Some("/tmp/somefile.py")) == "somefile"
  {
    var c := "/tmp/somefile.py";
    assert forall i | 14 <= i < |c| :: c[i] != '.' && c[i] != '/';
    Strings.RFindAt(c, '.', 13);
    assert forall i | 5 <= i < |c| :: c[i] != '/';
    Strings.RFindAt(c, '/', 4);
    assert !FileUtils.AllDots(c[5..13]) by { assert c[5..13][0] == 's'; }
    var b := "/tmp/somefile";
    assert c[..13] == b;
    assert forall i | 5 <= i < |b| :: b[i] != '/';
    Strings.RFindAt(b, '/', 4);
    assert b[5..] == "somefile";
  }

  const TableExts: seq<string> := [".tsv", ".tsv.gz"]

  lemma AcceptedFilenames()
    ensures FileUtils.IsAcceptableFilename(Some(".tsv"), TableExts)
    ensures FileUtils.IsAcceptableFilename(Some("X.Y.tsv"), TableExts)
    ensures FileUtils.IsAcceptableFilename(Some("x.tsv.gz"), TableExts)
  {
    assert Strings.EndsWith(".tsv", TableExts[0]);
    assert "X.Y.tsv"[3..] == ".tsv";
    assert Strings.EndsWith("X.Y.tsv", TableExts[0]);
    assert "x.tsv.gz"[1..] == ".tsv.gz";
    assert Strings.EndsWith("x.tsv.gz", TableExts[1]);
  }

  lemma RefusedFilenames()
    ensures !FileUtils.IsAcceptableFilename(Some("."), TableExts)
    ensures !FileUtils.IsAcceptableFilename(Some(".tsvy"), TableExts)
    ensures !FileUtils.IsAcceptableFilename(Some("tsv.gz"), TableExts)
    ensures !FileUtils.IsAcceptableFilename(None, TableExts)
  {
    FileUtils.ShortNameRejected(".", TableExts);
    assert ".tsvy"[1..] != ".tsv";
    assert "tsv.gz"[2..] != ".tsv";
  }

  lemma PathHasDotsFindsParent()
    ensures FileUtils.PathHasDots(Some("/usr/dummy/../smarty"))
  {
    var parts := ["", "usr", "dummy", "..", "smarty"];
    assert Strings.Join(parts, '/') == "/usr/dummy/../smarty";
    assert forall i | 0 <= i < |parts| :: '/' !in parts[i];
    FileUtils.PathHasDotsMeans(parts);
    assert parts[3] == "..";
  }

  lemma PathHasDotsPlainPath()
    ensures !FileUtils.PathHasDots(Some("/usr/dummy"))
  {
    var parts := ["", "usr", "dummy"];
    assert Strings.Join(parts, '/') == "/usr/dummy";
    assert forall i | 0 <= i < |parts| :: '/' !in parts[i];
    FileUtils.PathHasDotsMeans(parts);
    assert "." !in parts && ".." !in parts;
  }

  lemma PathHasDotsNothing()
    ensures !FileUtils.PathHasDots(Some(""))
    ensures !FileUtils.PathHasDots(None)
  {
    FileUtils.PathHasDotsMeans([""]);
  }

  /** The shape of the repository's path-list case: a readable directory is kept
      whatever its name; a readable file only with an accepted extension; a
      missing path, `''` and `None` never; order is kept. */
  lemma ValidatePathStringsKeepsTextFiles(fs: FileUtils.FsView, dir: string, txt: string, tsv: string, missing: string)
    requires dir != "" && fs.isDir(dir) && fs.readable(dir)
    requires txt != "" && fs.isFile(txt) && fs.readable(txt) && Strings.EndsWith(txt, ".txt")
    requires tsv != "" && fs.isFile(tsv) && !fs.isDir(tsv) && !Strings.EndsWith(tsv, ".txt")
    requires !fs.isDir(missing) && !fs.isFile(missing)
    ensures FileUtils.Kept([Some(dir), Some(txt), Some(tsv), Some(missing), Some(""), None], [".txt"], fs)
              == [Some(dir), Some(txt)]
  {
    var candidates := [Some(dir), Some(txt), Some(tsv), Some(missing), Some(""), None];
    var exts := [".txt"];
    var kept := [Some(dir), Some(txt)];
    assert FileUtils.Keep(Some(dir), exts, fs);
    assert FileUtils.Keep(Some(txt), exts, fs);
    assert FileUtils.Kept(candidates[..1], exts, fs) == [Some(dir)] by {
      assert candidates[..1][..0] == [];
    }
    assert FileUtils.Kept(candidates[..2], exts, fs) == kept by {
      assert candidates[..2][..1] == candidates[..1];
    }
    assert FileUtils.Kept(candidates[..3], exts, fs) == kept by {
      assert candidates[..3][..2] == candidates[..2];
    }
    assert FileUtils.Kept(candidates[..4], exts, fs) == kept by {
      assert candidates[..4][..3] == candidates[..3];
    }
    assert FileUtils.Kept(candidates[..5], exts, fs) == kept by {
      assert candidates[..5][..4] == candidates[..4];
    }
    assert candidates[..5] == candidates[..|candidates| - 1];
  }

  // ---------------------------------------------------------------------------
  // Whole runs

  /** One subject without sessions, whose bold images are `images` and whose
      phasediff sidecars are `sidecars`. */
  function OneSubject(subj: string, images: seq<Intend4.BidsFile>, sidecars: seq<Intend4.BidsFile>): Intend4.Layout {
    Intend4.Layout(
      [subj],
      (s: string) => [],
      (q: Intend4.FileQuery) => if q.suffix == "bold" then images else if q.suffix == "phasediff" then sidecars else [])
  }

  /** A run over a single subject is that subject's visit. */
  lemma RunIsVisit(modality: string, remove: bool, layout: Intend4.Layout, subj: string, w: Intend4.World, visit: Intend4.Outcome<nat>)
    requires layout.subjects == [subj]
    requires visit == Intend4.DoSingleSubject(modality, remove, layout, subj, w)
    ensures Intend4.DoSubjects(modality, Intend4.Args(None, remove), Some(layout), w) == visit
  {
    assert [subj][1..] == [];
    if visit.Normal? {
      assert Intend4.DoSubjectList(modality, remove, layout, [subj][1..], visit.world) == Intend4.Normal(0, visit.world);
    }
  }

  lemma ImagesOfOne(subj: string, image: Intend4.BidsFile, rel: string, sidecars: seq<Intend4.BidsFile>)
    requires Intend4.SubjRelPath(image.relpath) == Success(Some(rel))
    ensures Intend4.ImagePaths("bold", OneSubject(subj, [image], sidecars), subj, None) == Success([Some(rel)])
  {
    var layout := OneSubject(subj, [image], sidecars);
    var files := layout.get(Intend4.ImageQuery("bold", subj, None));
    assert Intend4.ImagePaths("bold", layout, subj, None) == Intend4.RelPaths(files);
    assert files == [image];
    assert files[1..] == [];
    assert Intend4.RelPaths(files[1..]) == Success([]);
    assert Intend4.RelPaths(files) == Success([Some(rel)] + []);
    assert [Some(rel)] + [] == [Some(rel)];
  }

  /** A subject with one bold image and one writable phasediff sidecar: the sidecar
      gains `IntendedFor` holding the image's path, keeps every other key and its
      mode, and the run counts one unit. */
  lemma RunWritesIntendedFor(subj: string, image: Intend4.BidsFile, rel: string, fmap: Intend4.BidsFile, w: Intend4.World)
    requires Intend4.SubjRelPath(image.relpath) == Success(Some(rel))
    requires Intend4.Rewritable(w.disk, fmap.path)
    ensures var r := Intend4.DoSubjects("bold", Intend4.Args(None, false), Some(OneSubject(subj, [image], [fmap])), w);
            && r.Normal? && r.value == 1
            && r.world.disk.modes == w.disk.modes
            && fmap.path in r.world.disk.files
            && Sidecar.Lookup(r.world.disk.files[fmap.path], Sidecar.IntendedFor) == Some(Sidecar.Array([Sidecar.Str(rel)]))
            && (forall k :: k != Sidecar.IntendedFor ==>
                  Sidecar.Lookup(r.world.disk.files[fmap.path], k) == Sidecar.Lookup(fmap.dict, k))
            && r.world.log == w.log + [Intend4.Rewrote(fmap.path)]
  {
    var layout := OneSubject(subj, [image], [fmap]);
    ImagesOfOne(subj, image, rel, [fmap]);
    assert layout.get(Intend4.SidecarQuery("bold", subj, None)) == [fmap];
    var modified := Sidecar.ModifyIntendedFor([Some(rel)], fmap.dict, false);
    var unit := Intend4.UpdateFieldmap("bold", false, layout, subj, None, w);
    assert unit == Intend4.RewriteSidecar(modified, fmap.path, w);
    assert Sidecar.PathList([Some(rel)]) == Sidecar.Array([Sidecar.Str(rel)]);
    assert unit.Normal? && unit.world.disk.files == w.disk.files[fmap.path := modified];
    RunIsVisit("bold", false, layout, subj, w, Intend4.DoSingleSubject("bold", false, layout, subj, w));
  }

  /** Without a sidecar the unit is reported, nothing is written, and it still counts. */
  lemma RunReportsMissingSidecar(subj: string, image: Intend4.BidsFile, rel: string, w: Intend4.World)
    requires Intend4.SubjRelPath(image.relpath) == Success(Some(rel))
    ensures Intend4.DoSubjects("bold", Intend4.Args(None, false), Some(OneSubject(subj, [image], [])), w)
            == Intend4.Normal(1, Intend4.World(w.disk, w.log + [Intend4.MissingSidecar("phasediff", subj, None)]))
  {
    var layout := OneSubject(subj, [image], []);
    ImagesOfOne(subj, image, rel, []);
    RunIsVisit("bold", false, layout, subj, w, Intend4.DoSingleSubject("bold", false, layout, subj, w));
  }

  /** Two phasediff sidecars: reported as ambiguous, nothing written. */
  lemma RunReportsAmbiguousSidecar(subj: string, image: Intend4.BidsFile, rel: string,
                                   a: Intend4.BidsFile, b: Intend4.BidsFile, w: Intend4.World)
    requires Intend4.SubjRelPath(image.relpath) == Success(Some(rel))
    ensures Intend4.DoSubjects("bold", Intend4.Args(None, false), Some(OneSubject(subj, [image], [a, b])), w)
            == Intend4.Normal(1, Intend4.World(w.disk, w.log + [Intend4.AmbiguousSidecar("phasediff", subj, None)]))
  {
    var layout := OneSubject(subj, [image], [a, b]);
    ImagesOfOne(subj, image, rel, [a, b]);
    RunIsVisit("bold", false, layout, subj, w, Intend4.DoSingleSubject("bold", false, layout, subj, w));
  }

  /** A write that breaks off raises, and leaves the sidecar at mode octal 640
      instead of the mode it had. */
  lemma RunLeavesModeOnFailure(subj: string, image: Intend4.BidsFile, rel: string, fmap: Intend4.BidsFile, w: Intend4.World)
    requires Intend4.SubjRelPath(image.relpath) == Success(Some(rel))
    requires fmap.path in w.disk.modes && fmap.path !in w.disk.locked && fmap.path in w.disk.failing
    ensures var r := Intend4.DoSubjects("bold", Intend4.Args(None, false), Some(OneSubject(subj, [image], [fmap])), w);
            && r.Raised? && r.fault == Intend4.DumpFailed(fmap.path)
            && r.world.disk.modes == w.disk.modes[fmap.path := Intend4.WritableMode]
            && r.world.log == w.log
  {
    var layout := OneSubject(subj, [image], [fmap]);
    ImagesOfOne(subj, image, rel, [fmap]);
    RunIsVisit("bold", false, layout, subj, w, Intend4.DoSingleSubject("bold", false, layout, subj, w));
  }

  /** One subject with sessions `a` and `b`, each holding one bold image and one
      phasediff sidecar of its own. */
  function TwoSessions(subj: string, a: string, b: string, imageA: Intend4.BidsFile, imageB: Intend4.BidsFile,
                       fmapA: Intend4.BidsFile, fmapB: Intend4.BidsFile): Intend4.Layout {
    Intend4.Layout(
      [subj],
      (s: string) => [a, b],
      (q: Intend4.FileQuery) =>
        if q.session == Some(a) then
          (if q.suffix == "bold" then [imageA] else if q.suffix == "phasediff" then [fmapA] else [])
        else if q.session == Some(b) then
          (if q.suffix == "bold" then [imageB] else if q.suffix == "phasediff" then [fmapB] else [])
        else [])
  }

  /** A unit with one bold image and one rewritable phasediff sidecar rewrites that
      sidecar with the image's path under `IntendedFor`, and nothing else. */
  lemma UnitRewritesSidecar(layout: Intend4.Layout, subj: string, sess: Option<string>,
                            image: Intend4.BidsFile, rel: string, fmap: Intend4.BidsFile, w: Intend4.World)
    requires layout.get(Intend4.ImageQuery("bold", subj, sess)) == [image]
    requires layout.get(Intend4.SidecarQuery("bold", subj, sess)) == [fmap]
    requires Intend4.SubjRelPath(image.relpath) == Success(Some(rel))
    requires Intend4.Rewritable(w.disk, fmap.path)
    ensures Intend4.UpdateFieldmap("bold", false, layout, subj, sess, w)
            == Intend4.Normal((), Intend4.World(
                 w.disk.(files := w.disk.files[fmap.path := Sidecar.ModifyIntendedFor([Some(rel)], fmap.dict, false)]),
                 w.log + [Intend4.Rewrote(fmap.path)]))
  {
    var files := [image];
    assert files[1..] == [];
    assert Intend4.RelPaths(files[1..]) == Success([]);
    assert Intend4.RelPaths(files) == Success([Some(rel)] + []);
    assert [Some(rel)] + [] == [Some(rel)];
  }

  /** `layout` has the single subject `subj`, with sessions `a` and `b`, each
      holding one bold image and one phasediff sidecar. */
  predicate TwoSessionLayout(layout: Intend4.Layout, subj: string, a: string, b: string,
                             imageA: Intend4.BidsFile, imageB: Intend4.BidsFile, fmapA: Intend4.BidsFile, fmapB: Intend4.BidsFile)
  {
    && layout.subjects == [subj] && layout.sessions(subj) == [a, b]
    && layout.get(Intend4.ImageQuery("bold", subj, Some(a))) == [imageA]
    && layout.get(Intend4.SidecarQuery("bold", subj, Some(a))) == [fmapA]
    && layout.get(Intend4.ImageQuery("bold", subj, Some(b))) == [imageB]
    && layout.get(Intend4.SidecarQuery("bold", subj, Some(b))) == [fmapB]
  }

  /** The layout `TwoSessions` builds is such a layout. */
  lemma TwoSessionsQueries(subj: string, a: string, b: string, imageA: Intend4.BidsFile, imageB: Intend4.BidsFile,
                           fmapA: Intend4.BidsFile, fmapB: Intend4.BidsFile)
    requires a != b
    ensures TwoSessionLayout(TwoSessions(subj, a, b, imageA, imageB, fmapA, fmapB), subj, a, b, imageA, imageB, fmapA, fmapB)
  {
    assert Intend4.FieldmapSuffix("bold") == "phasediff";
  }

  /** Two sessions, each with its own image and sidecar: the subject's visit runs
      both units, rewrites both sidecars in session order, and counts two units.
      `w1` is the world after the first session, `w2` after the second. */
  lemma RunRewritesEverySession(layout: Intend4.Layout, subj: string, a: string, b: string,
                                imageA: Intend4.BidsFile, relA: string, imageB: Intend4.BidsFile, relB: string,
                                fmapA: Intend4.BidsFile, fmapB: Intend4.BidsFile, w: Intend4.World, w1: Intend4.World, w2: Intend4.World)
    requires TwoSessionLayout(layout, subj, a, b, imageA, imageB, fmapA, fmapB)
    requires Intend4.SubjRelPath(imageA.relpath) == Success(Some(relA))
    requires Intend4.SubjRelPath(imageB.relpath) == Success(Some(relB))
    requires Intend4.Rewritable(w.disk, fmapA.path) && Intend4.Rewritable(w.disk, fmapB.path)
    requires w1 == Intend4.World(w.disk.(files := w.disk.files[fmapA.path := Sidecar.ModifyIntendedFor([Some(relA)], fmapA.dict, false)]),
                                 w.log + [Intend4.Rewrote(fmapA.path)])
    requires w2 == Intend4.World(w1.disk.(files := w1.disk.files[fmapB.path := Sidecar.ModifyIntendedFor([Some(relB)], fmapB.dict, false)]),
                                 w1.log + [Intend4.Rewrote(fmapB.path)])
    ensures Intend4.DoSingleSubject("bold", false, layout, subj, w) == Intend4.Normal(2, w2)
  {
    var ua := Intend4.Unit(subj, Some(a));
    var ub := Intend4.Unit(subj, Some(b));
    assert Intend4.SubjectUnits(layout, subj) == [ua, ub] by {
      assert [a, b][1..] == [b];
      assert [b][1..] == [];
    }
    UnitRewritesSidecar(layout, subj, Some(a), imageA, relA, fmapA, w);
    UnitRewritesSidecar(layout, subj, Some(b), imageB, relB, fmapB, w1);
    RunTwoUnits("bold", false, layout, ua, ub, w, w1, w2);
  }

  /** Two units that each complete make a run of two. */
  lemma RunTwoUnits(modality: string, remove: bool, layout: Intend4.Layout, u1: Intend4.Unit, u2: Intend4.Unit,
                    w: Intend4.World, w1: Intend4.World, w2: Intend4.World)
    requires Intend4.UpdateFieldmap(modality, remove, layout, u1.subject, u1.session, w) == Intend4.Normal((), w1)
    requires Intend4.UpdateFieldmap(modality, remove, layout, u2.subject, u2.session, w1) == Intend4.Normal((), w2)
    ensures Intend4.RunUnits(modality, remove, layout, [u1, u2], w) == Intend4.Normal(2, w2)
  {
    assert [u1, u2][1..] == [u2];
    assert [u2][1..] == [];
    assert Intend4.RunUnits(modality, remove, layout, [u2], w1) == Intend4.Normal(1, w2) by {
      assert Intend4.RunUnits(modality, remove, layout, [], w2) == Intend4.Normal(0, w2);
    }
  }

  /** Subject 219 has two sessions and no images: two units, nothing touched. */
  lemma RunCountsSessions(w: Intend4.World)
    ensures var layout := Intend4.Layout(["219"], (s: string) => ["ctbs", "itbs"], (q: Intend4.FileQuery) => []);
            Intend4.DoSubjects("dwi", Intend4.Args(Some(["219"]), true), Some(layout), w) == Intend4.Normal(2, w)
  {
  }
}
