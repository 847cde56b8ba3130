/**
 The copy script: the extension argument is given a leading "." when it has
 none, the destination directory is created when nothing exists under its
 name, and every file of the source directory whose name ends with the
 extension is copied into the destination under its sequential name,
 numbering from 1. The local file system is a set of directory paths and a
 map from file paths to contents.
 */
module UploadToLocal {
  import opened Strings
  import opened Paths
  import opened Numbering

  type Content = seq<bv8>

  /**
   The extension as the script uses it: unchanged when it already starts
   with ".", and with exactly one "." put in front otherwise.
   */
  function NormalisedExtension(ext: string): (r: string)
    ensures StartsWith(r, ".")
    ensures r == ext <==> StartsWith(ext, ".")
    ensures r != ext ==> r == "." + ext
  {
    if StartsWith(ext, ".") then ext else "." + ext
  }

  /** Normalising twice is normalising once. */
  lemma NormalisationIdempotent(ext: string)
    ensures NormalisedExtension(NormalisedExtension(ext)) == NormalisedExtension(ext)
  {
  }

  /** One `shutil.copy`: the file copied, the name it gets and the path it is copied to */
  datatype CopyStep = CopyStep(source: string, newName: string, target: string)

  /** The copy made of the listed file `name` of `sourceDir` when the counter is `number` */
  function CopyOf(sourceDir: string, destinationDir: string, name: string, number: nat): CopyStep {
    var imageFile := Join(sourceDir, name);
    var newName := NewName(number, imageFile);
    CopyStep(imageFile, newName, Join(destinationDir, newName))
  }

  /**
   The copies a run makes of the matched base names `matched`: the k-th
   copy (from 0) is that of the k-th matched file, under number `k + 1`.
   */
  function PlannedCopies(sourceDir: string, destinationDir: string, matched: seq<string>): (r: seq<CopyStep>)
    ensures |r| == |matched|
  {
    seq(|matched|, k requires 0 <= k < |matched| => CopyOf(sourceDir, destinationDir, matched[k], k + 1))
  }

  /** The copies a run of the script with these arguments makes, in order */
  function Plan(sourceDir: string, destinationDir: string, extension: string, listing: seq<string>): seq<CopyStep> {
    PlannedCopies(sourceDir, destinationDir, SelectBySuffix(listing, NormalisedExtension(extension)))
  }

  /** The paths a sequence of copies writes to */
  function Targets(steps: seq<CopyStep>): (r: seq<string>)
    ensures |r| == |steps|
  {
    seq(|steps|, k requires 0 <= k < |steps| => steps[k].target)
  }

  /**
   The files after the copies `steps`, made one after the other: each copy
   gives its target the content its source has at that moment. Every path
   that held a file still holds one, and the targets hold one too.
   */
  function ApplyCopies(files: map<string, Content>, steps: seq<CopyStep>): (r: map<string, Content>)
    requires forall k :: 0 <= k < |steps| ==> steps[k].source in files
    ensures files.Keys <= r.Keys
    ensures forall k :: 0 <= k < |steps| ==> steps[k].target in r
    decreases |steps|
  {
    if steps == [] then files
    else
      var last := steps[|steps| - 1];
      var before := ApplyCopies(files, steps[..|steps| - 1]);
      before[last.target := before[last.source]]
  }

  /** The copies of a prefix of the plan, one more step at a time */
  lemma ApplyCopiesStep(files: map<string, Content>, steps: seq<CopyStep>, i: nat)
    requires i < |steps|
    requires forall k :: 0 <= k < |steps| ==> steps[k].source in files
    ensures var before := ApplyCopies(files, steps[..i]);
      ApplyCopies(files, steps[..i + 1]) == before[steps[i].target := before[steps[i].source]]
  {
    assert steps[..i + 1][..i] == steps[..i];
  }

  /**
   When no copy writes to a path another copy reads, and no two copies
   write to the same path, each target ends up with the content of its
   source and every other file keeps its content.
   */
  lemma {:induction false} CopiesLand(files: map<string, Content>, steps: seq<CopyStep>)
    requires forall k :: 0 <= k < |steps| ==> steps[k].source in files
    requires forall j, k :: 0 <= j < |steps| && 0 <= k < |steps| ==> steps[j].target != steps[k].source
    requires NoRepeats(Targets(steps))
    ensures forall k :: 0 <= k < |steps| ==> ApplyCopies(files, steps)[steps[k].target] == files[steps[k].source]
    ensures forall p :: p in files && p !in Targets(steps) ==> ApplyCopies(files, steps)[p] == files[p]
    decreases |steps|
  {
    if steps != [] {
      var n := |steps| - 1;
      var prefix := steps[..n];
      var last := steps[n];
      assert Targets(steps) == Targets(prefix) + [last.target];
      assert NoRepeats(Targets(prefix)) by {
        forall i, j | 0 <= i < j < |Targets(prefix)| ensures Targets(prefix)[i] != Targets(prefix)[j] {
          assert Targets(prefix)[i] == Targets(steps)[i] && Targets(prefix)[j] == Targets(steps)[j];
        }
      }
      CopiesLand(files, prefix);
      assert last.source !in Targets(prefix);
      forall k | 0 <= k < n ensures last.target != prefix[k].target {
        assert Targets(steps)[k] == prefix[k].target && Targets(steps)[n] == last.target;
      }
    }
  }

  /** A copy whose target is its own source, which `shutil.copy` refuses */
  predicate SelfCopy(s: CopyStep) {
    s.source == s.target
  }

  /** No copy of `steps` has its own source as target. */
  predicate NoSelfCopy(steps: seq<CopyStep>) {
    forall k :: 0 <= k < |steps| ==> !SelfCopy(steps[k])
  }

  /** A prefix without a copy onto itself, followed by one more such copy, has none either. */
  lemma NoSelfCopyStep(steps: seq<CopyStep>, i: nat)
    requires i < |steps| && NoSelfCopy(steps[..i]) && !SelfCopy(steps[i])
    ensures NoSelfCopy(steps[..i + 1])
  {
    var longer, shorter := steps[..i + 1], steps[..i];
    forall k | 0 <= k < |longer| ensures !SelfCopy(longer[k]) {
      if k < i {
        assert longer[k] == shorter[k];
      }
    }
  }

  /**
   The state after the first `n` copies of `plan`, all of whose sources
   were present in `files0`: `files` is what those copies made, and none of
   them was a copy of a file onto itself.
   */
  predicate CopiedPrefix(files0: map<string, Content>, files: map<string, Content>, plan: seq<CopyStep>, n: nat) {
    && n <= |plan|
    && (forall k :: 0 <= k < |plan| ==> plan[k].source in files0)
    && files == ApplyCopies(files0, plan[..n])
    && NoSelfCopy(plan[..n])
  }

  lemma CopiedPrefixStart(files0: map<string, Content>, plan: seq<CopyStep>)
    requires forall k :: 0 <= k < |plan| ==> plan[k].source in files0
    ensures CopiedPrefix(files0, files0, plan, 0)
  {
    assert plan[..0] == [];
  }

  /**
   A run that got through all of `plan` made every copy, none of them onto
   its own source.
   */
  lemma CompletedCopies(files0: map<string, Content>, files: map<string, Content>, plan: seq<CopyStep>)
    requires CopiedPrefix(files0, files, plan, |plan|)
    ensures files == ApplyCopies(files0, plan)
    ensures forall k :: 0 <= k < |plan| ==> !SelfCopy(plan[k])
  {
    assert plan[..|plan|] == plan;
  }

  /** Every source of the plan is still there after some of the copies. */
  lemma CopiedPrefixHas(files0: map<string, Content>, files: map<string, Content>, plan: seq<CopyStep>, n: nat, k: nat)
    requires CopiedPrefix(files0, files, plan, n) && k < |plan|
    ensures plan[k].source in files
  {
  }

  /** One more copy, which is not onto its own source, extends the prefix by one. */
  lemma CopiedPrefixStep(files0: map<string, Content>, files: map<string, Content>, plan: seq<CopyStep>, n: nat, next: CopyStep)
    requires CopiedPrefix(files0, files, plan, n) && n < |plan| && next == plan[n] && !SelfCopy(next)
    requires next.source in files
    ensures CopiedPrefix(files0, files[next.target := files[next.source]], plan, n + 1)
  {
    ApplyCopiesStep(files0, plan, n);
    NoSelfCopyStep(plan, n);
  }

  lemma PlannedCopyAt(sourceDir: string, destinationDir: string, matched: seq<string>, i: nat)
    requires i < |matched|
    ensures PlannedCopies(sourceDir, destinationDir, matched)[i] == CopyOf(sourceDir, destinationDir, matched[i], i + 1)
  {
  }

  /** The k-th copy of a run carries number `k + 1`: numbering starts at 1 and goes up by one. */
  lemma PlannedNumbers(sourceDir: string, destinationDir: string, matched: seq<string>)
    ensures var plan := PlannedCopies(sourceDir, destinationDir, matched);
      forall k :: 0 <= k < |plan| ==> NumberOf(plan[k].newName) == k + 1
  {
    var plan := PlannedCopies(sourceDir, destinationDir, matched);
    forall k | 0 <= k < |plan| ensures NumberOf(plan[k].newName) == k + 1 {
      NewNameParts(k + 1, Join(sourceDir, matched[k]));
    }
  }

  /** Two copies made under different numbers never write to the same path. */
  lemma CopyTargetsDiffer(sourceDir: string, destinationDir: string, m: string, a: nat, n: string, b: nat)
    requires a != b
    ensures CopyOf(sourceDir, destinationDir, m, a).target != CopyOf(sourceDir, destinationDir, n, b).target
  {
    var p, q := Join(sourceDir, m), Join(sourceDir, n);
    if Join(destinationDir, NewName(a, p)) == Join(destinationDir, NewName(b, q)) {
      NewNameIsRelative(a, p);
      NewNameIsRelative(b, q);
      JoinInjective(destinationDir, NewName(a, p), NewName(b, q));
      NewNameInjective(a, p, b, q);
    }
  }

  /** No two copies of a run write to the same path. */
  lemma PlannedTargetsDistinct(sourceDir: string, destinationDir: string, matched: seq<string>)
    ensures NoRepeats(Targets(PlannedCopies(sourceDir, destinationDir, matched)))
  {
    var plan := PlannedCopies(sourceDir, destinationDir, matched);
    forall i, j | 0 <= i < j < |plan| ensures Targets(plan)[i] != Targets(plan)[j] {
      PlannedTargetsDiffer(sourceDir, destinationDir, matched, i, j);
    }
  }

  lemma PlannedTargetsDiffer(sourceDir: string, destinationDir: string, matched: seq<string>, i: nat, j: nat)
    requires i < j < |matched|
    ensures var plan := PlannedCopies(sourceDir, destinationDir, matched);
      plan[i].target != plan[j].target
  {
    CopyTargetsDiffer(sourceDir, destinationDir, matched[i], i + 1, matched[j], j + 1);
  }

  /**
   When no listed file lies where a copy is written, every copy of a
   completed run holds the content of the file it was made from.
   */
  lemma PlannedCopiesLand(files: map<string, Content>, sourceDir: string, destinationDir: string, matched: seq<string>)
    requires var plan := PlannedCopies(sourceDir, destinationDir, matched);
      forall k :: 0 <= k < |plan| ==> plan[k].source in files
    requires var plan := PlannedCopies(sourceDir, destinationDir, matched);
      forall j, k :: 0 <= j < |plan| && 0 <= k < |plan| ==> plan[j].target != plan[k].source
    ensures var plan := PlannedCopies(sourceDir, destinationDir, matched);
      forall k :: 0 <= k < |plan| ==> ApplyCopies(files, plan)[plan[k].target] == files[plan[k].source]
    ensures var plan := PlannedCopies(sourceDir, destinationDir, matched);
      forall p :: p in files && p !in Targets(plan) ==> ApplyCopies(files, plan)[p] == files[p]
  {
    PlannedTargetsDistinct(sourceDir, destinationDir, matched);
    CopiesLand(files, PlannedCopies(sourceDir, destinationDir, matched));
  }

  /**
   A single-dot extension carries over: when the normalised extension has
   no further ".", and no listed name starts with "." or holds a "/", every
   copy is named its three-digit number followed by that extension.
   */
  lemma SingleDotExtensionKept(sourceDir: string, destinationDir: string, extension: string, listing: seq<string>)
    requires forall k :: 0 < k < |NormalisedExtension(extension)| ==> NormalisedExtension(extension)[k] != '.'
    requires forall name, k :: name in listing && 0 <= k < |name| ==> name[k] != '/'
    requires forall name :: name in listing ==> name != [] && name[0] != '.'
    ensures var plan := Plan(sourceDir, destinationDir, extension, listing);
      forall k :: 0 <= k < |plan| ==> plan[k].newName == Pad3(k + 1) + NormalisedExtension(extension)
  {
    var ext := NormalisedExtension(extension);
    var matched := SelectBySuffix(listing, ext);
    forall k | 0 <= k < |matched|
      ensures PlannedCopies(sourceDir, destinationDir, matched)[k].newName == Pad3(k + 1) + ext
    {
      SingleDotNameAt(sourceDir, destinationDir, ext, listing, matched, k);
    }
  }

  lemma SingleDotNameAt(sourceDir: string, destinationDir: string, ext: string, listing: seq<string>,
                        matched: seq<string>, k: nat)
    requires forall i :: 0 < i < |ext| ==> ext[i] != '.'
    requires |ext| > 0 && ext[0] == '.'
    requires forall name, i :: name in listing && 0 <= i < |name| ==> name[i] != '/'
    requires forall name :: name in listing ==> name != [] && name[0] != '.'
    requires matched == SelectBySuffix(listing, ext) && k < |matched|
    ensures PlannedCopies(sourceDir, destinationDir, matched)[k].newName == Pad3(k + 1) + ext
  {
    var name := matched[k];
    assert name in listing && EndsWith(name, ext);
    ExtensionOfJoin(sourceDir, name);
    ExtensionOfSingleDotName(name, ext);
  }

  /**
   Exactly the matching files are copied: a listed name is the source of
   some copy if and only if it ends with the normalised extension.
   */
  lemma PlanCopiesMatches(sourceDir: string, destinationDir: string, extension: string, listing: seq<string>)
    requires forall name :: name in listing ==> !StartsWith(name, "/")
    ensures var plan := Plan(sourceDir, destinationDir, extension, listing);
      forall name :: name in listing ==>
        (EndsWith(name, NormalisedExtension(extension))
         <==> exists k :: 0 <= k < |plan| && plan[k].source == Join(sourceDir, name))
  {
    var matched := SelectBySuffix(listing, NormalisedExtension(extension));
    forall name | name in listing {
      PlanCopiesName(sourceDir, destinationDir, matched, name);
    }
  }

  /** `PlanCopiesMatches` for one name */
  lemma PlanCopiesName(sourceDir: string, destinationDir: string, matched: seq<string>, name: string)
    requires !StartsWith(name, "/")
    requires forall m :: m in matched ==> !StartsWith(m, "/")
    ensures var plan := PlannedCopies(sourceDir, destinationDir, matched);
      name in matched <==> exists k :: 0 <= k < |plan| && plan[k].source == Join(sourceDir, name)
  {
    var plan := PlannedCopies(sourceDir, destinationDir, matched);
    if name in matched {
      var k :| 0 <= k < |matched| && matched[k] == name;
      MatchedIsCopied(sourceDir, destinationDir, matched, k);
    }
    if exists k :: 0 <= k < |plan| && plan[k].source == Join(sourceDir, name) {
      var k :| 0 <= k < |plan| && plan[k].source == Join(sourceDir, name);
      CopiedIsMatched(sourceDir, destinationDir, matched, k, name);
    }
  }

  lemma MatchedIsCopied(sourceDir: string, destinationDir: string, matched: seq<string>, k: nat)
    requires k < |matched|
    ensures PlannedCopies(sourceDir, destinationDir, matched)[k].source == Join(sourceDir, matched[k])
  {
  }

  lemma CopiedIsMatched(sourceDir: string, destinationDir: string, matched: seq<string>, k: nat, name: string)
    requires k < |matched| && !StartsWith(name, "/") && !StartsWith(matched[k], "/")
    requires PlannedCopies(sourceDir, destinationDir, matched)[k].source == Join(sourceDir, name)
    ensures name == matched[k]
  {
    MatchedIsCopied(sourceDir, destinationDir, matched, k);
    JoinInjective(sourceDir, matched[k], name);
  }

  /** Extension "jpg" selects "a.jpg" and "b.jpg", in that order, from "a.jpg", "b.jpg", "c.png". */
  lemma JpgSelection()
    ensures NormalisedExtension("jpg") == ".jpg"
    ensures SelectBySuffix(["a.jpg", "b.jpg", "c.png"], ".jpg") == ["a.jpg", "b.jpg"]
  {
    assert !StartsWith("jpg", ".") by {
      assert "jpg"[..1][0] == 'j';
    }
    var listing := ["a.jpg", "b.jpg", "c.png"];
    assert listing[1..] == ["b.jpg", "c.png"] && listing[1..][1..] == ["c.png"] && ["c.png"][1..] == [];
  }

  /**
   A later "." wins: "src/a.tar.gz", which extension "tar.gz" selects, has
   extension ".gz", so its copy is named like "001.gz".
   */
  lemma MultiDotExtensionExample()
    ensures Extension("src/a.tar.gz") == ".gz"
  {
    var p := "src/a.tar.gz";
    LastIndexIs(p, '/', 3);
    LastIndexIs(p, '.', 9);
    assert NonDotBetween(p, 3, 9) by {
      assert p[4] != '.';
    }
    assert p[9..] == ".gz";
  }

  /**
   The outcome of a run: it went through, a copy was asked to overwrite its
   own source, or the destination directory could not be created.
   */
  datatype Outcome = Complete | SameFileError(path: string) | FileNotFoundError(path: string)

  /** The local file system: the directories that exist, and each file's content */
  class FileSystem {
    var dirs: set<string>
    var files: map<string, Content>

    constructor (dirs: set<string>, files: map<string, Content>)
      ensures this.dirs == dirs && this.files == files
    {
      this.dirs := dirs;
      this.files := files;
    }

    /** `os.path.exists(path)`: the empty path never exists. */
    predicate Exists(path: string)
      reads this
    {
      path != "" && (path in dirs || path in files)
    }

    /**
     `os.makedirs(path)`, which needs nothing to exist under that name yet.
     The empty path cannot be created: that raises `FileNotFoundError`.
     */
    method MakeDirs(path: string) returns (ok: bool)
      requires !Exists(path)
      modifies this`dirs
      ensures ok <==> path != ""
      ensures dirs == if ok then old(dirs) + {path} else old(dirs)
    {
      if path == "" {
        return false;
      }
      dirs := dirs + {path};
      return true;
    }

    /**
     `shutil.copy(src, os.path.join(dir, name))`: the directory must exist,
     the source must be a file and the target must not be a directory. A
     copy onto its own source raises `SameFileError` and changes nothing;
     otherwise the target holds the source's content and no other file
     changes.
     */
    method CopyFile(src: string, dir: string, name: string) returns (ok: bool)
      requires dir in dirs && src in files && Join(dir, name) !in dirs
      modifies this`files
      ensures ok <==> src != Join(dir, name)
      ensures files == if ok then old(files)[Join(dir, name) := old(files)[src]] else old(files)
    {
      var dst := Join(dir, name);
      if src == dst {
        return false;
      }
      files := files[dst := files[src]];
      return true;
    }
  }

  /** A copy target lies strictly inside the destination directory's path. */
  lemma CopyTargetInside(sourceDir: string, destinationDir: string, name: string, number: nat)
    ensures |CopyOf(sourceDir, destinationDir, name, number).target| > |destinationDir|
  {
    var imageFile := Join(sourceDir, name);
    NewNameParts(number, imageFile);
    NewNameIsRelative(number, imageFile);
    JoinExtends(destinationDir, NewName(number, imageFile));
  }

  /** No copy of a run writes to the destination directory's own path. */
  lemma PlannedTargetsInside(sourceDir: string, destinationDir: string, matched: seq<string>)
    ensures var plan := PlannedCopies(sourceDir, destinationDir, matched);
      forall k :: 0 <= k < |plan| ==> plan[k].target != destinationDir
  {
    forall k | 0 <= k < |matched|
      ensures PlannedCopies(sourceDir, destinationDir, matched)[k].target != destinationDir
    {
      CopyTargetInside(sourceDir, destinationDir, matched[k], k + 1);
    }
  }

  /**
   One turn of the copy loop: the new name from the counter and the
   original's extension, joined onto the destination, and the copy.
   */
  method CopyImage(fs: FileSystem, sourceDir: string, destinationDir: string, name: string, counter: nat)
    returns (ok: bool)
    requires destinationDir in fs.dirs && Join(sourceDir, name) in fs.files
    requires CopyOf(sourceDir, destinationDir, name, counter).target !in fs.dirs
    modifies fs`files
    ensures var step := CopyOf(sourceDir, destinationDir, name, counter);
      && (ok <==> !SelfCopy(step))
      && fs.files == if ok then old(fs.files)[step.target := old(fs.files)[step.source]] else old(fs.files)
  {
    var imageFile := Join(sourceDir, name);
    var newFileName := NewName(counter, imageFile);
    ok := fs.CopyFile(imageFile, destinationDir, newFileName);
  }

  /**
   The whole script on file system `fs`, with `listing` the base names of
   the files of `sourceDir` in the order `glob` enumerates them: the
   extension is normalised, the destination directory is created when
   nothing exists under its name, and the matched files are copied.
   */
  method Run(fs: FileSystem, sourceDir: string, destinationDir: string, extension: string, listing: seq<string>)
    returns (counter: nat, outcome: Outcome)
    requires destinationDir !in fs.files
    requires var plan := Plan(sourceDir, destinationDir, extension, listing);
      forall k :: 0 <= k < |plan| ==> plan[k].source in fs.files && plan[k].target !in fs.dirs
    modifies fs
    ensures outcome.FileNotFoundError? <==> destinationDir == ""
    ensures outcome.FileNotFoundError? ==>
      && outcome.path == destinationDir && counter == 1
      && fs.dirs == old(fs.dirs) && fs.files == old(fs.files)
    ensures !outcome.FileNotFoundError? ==> fs.dirs == old(fs.dirs) + {destinationDir}
    ensures !outcome.FileNotFoundError? ==>
      var plan := Plan(sourceDir, destinationDir, extension, listing);
      && 1 <= counter <= |plan| + 1
      && CopiedPrefix(old(fs.files), fs.files, plan, counter - 1)
      && (outcome == Complete <==> counter == |plan| + 1)
      && (outcome.SameFileError? ==> outcome.path == plan[counter - 1].source == plan[counter - 1].target)
  {
    var imageExtension := extension;
    if !StartsWith(imageExtension, ".") {
      imageExtension := "." + imageExtension;
    }
    if !fs.Exists(destinationDir) {
      var made := fs.MakeDirs(destinationDir);
      if !made {
        counter, outcome := 1, FileNotFoundError(destinationDir);
        return;
      }
    }
    var matched := SelectBySuffix(listing, imageExtension);
    assert PlannedCopies(sourceDir, destinationDir, matched) == Plan(sourceDir, destinationDir, extension, listing);
    PlannedTargetsInside(sourceDir, destinationDir, matched);
    counter, outcome := CopyMatched(fs, sourceDir, destinationDir, matched);
  }

  /**
   The copy loop: from `counter = 1`, each matched file is copied under its
   sequential name and the counter goes up by one. The loop stops at the
   first copy of a file onto itself; `counter - 1` copies have been made
   when it ends.
   */
  method CopyMatched(fs: FileSystem, sourceDir: string, destinationDir: string, matched: seq<string>)
    returns (counter: nat, outcome: Outcome)
    requires destinationDir in fs.dirs
    requires var plan := PlannedCopies(sourceDir, destinationDir, matched);
      forall k :: 0 <= k < |plan| ==> plan[k].source in fs.files && plan[k].target !in fs.dirs
    modifies fs`files
    ensures var plan := PlannedCopies(sourceDir, destinationDir, matched);
      && 1 <= counter <= |plan| + 1
      && CopiedPrefix(old(fs.files), fs.files, plan, counter - 1)
      && !outcome.FileNotFoundError?
      && (outcome == Complete <==> counter == |plan| + 1)
      && (outcome.SameFileError? ==> outcome.path == plan[counter - 1].source == plan[counter - 1].target)
  {
    ghost var plan := PlannedCopies(sourceDir, destinationDir, matched);
    CopiedPrefixStart(fs.files, plan);
    counter := 1;
    outcome := Complete;
    var i := 0;
    while i < |matched|
      invariant 0 <= i <= |matched| && counter == i + 1
      invariant CopiedPrefix(old(fs.files), fs.files, plan, i)
    {
      ghost var before := fs.files;
      ghost var next := plan[i];
      PlannedCopyAt(sourceDir, destinationDir, matched, i);
      CopiedPrefixHas(old(fs.files), before, plan, i, i);
      var ok := CopyImage(fs, sourceDir, destinationDir, matched[i], counter);
      if !ok {
        outcome := SameFileError(Join(sourceDir, matched[i]));
        return;
      }
      CopiedPrefixStep(old(fs.files), before, plan, i, next);
      counter := counter + 1;
      i := i + 1;
    }
  }
}
