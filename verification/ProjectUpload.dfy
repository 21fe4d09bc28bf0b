/** An uploaded project tree on its way through the staging directory into the cluster's own. */
module ProjectUpload {
  import opened Domain
  import opened TarValidation

  /** How the privileged copy ends; a copy that fails may have copied what is at `copied`. */
  datatype Copy = Copied | CopyFails(copied: set<Path>)

  /** How the removal of the staging directory ends; one that fails may have removed what is at `gone`. */
  datatype Removal = Removed | RemovalFails(gone: set<Path>)

  datatype Answers = Answers(created: bool, permitted: bool, joined: bool, copy: Copy, removal: Removal)

  datatype UploadError =
    | StagingFailed
    | PermissionsFailed
    | Rejected(error: TarError)
    | ExtractionAborted
    | CopyFailed

  /** The part of a tree at the given paths. */
  function PartOf(tree: Tree, paths: set<Path>): Tree {
    map p | p in tree && p in paths :: tree[p]
  }

  /** What a removal leaves of a tree. */
  function AfterRemoval(tree: Tree, removal: Removal): Tree {
    match removal
    case Removed => map[]
    case RemovalFails(gone) => map p | p in tree && p !in gone :: tree[p]
  }

  /** A copy or a removal that fails has done part of its work: exactly the paths named. */
  lemma PartsExactly(tree: Tree, paths: set<Path>, p: Path)
    ensures p in PartOf(tree, paths) <==> p in tree && p in paths
    ensures p in PartOf(tree, paths) ==> PartOf(tree, paths)[p] == tree[p]
    ensures p in AfterRemoval(tree, RemovalFails(paths)) <==> p in tree && p !in paths
    ensures p in AfterRemoval(tree, RemovalFails(paths)) ==> AfterRemoval(tree, RemovalFails(paths))[p] == tree[p]
    ensures p !in AfterRemoval(tree, Removed)
  {
  }

  /** The staging directory of one account and slot, and the project directory it feeds. */
  class Upload {
    const staging: Destination
    var staged: bool
    var project: Tree

    /** Nothing is in a staging directory that does not exist. */
    ghost predicate Valid()
      reads this, staging
    {
      !staged ==> staging.tree == map[]
    }

    constructor ()
      ensures Valid() && fresh(staging) && !staged && project == map[]
    {
      staging := new Destination();
      staged := false;
      project := map[];
      new;
      assert staging.tree == map[];
    }

    /** Extracts the archive into the staging directory, copies whatever is there into the project
        directory, and removes the staging directory whatever came of the two. */
    method Adopt(items: seq<Item>, limits: Limits, answers: Answers) returns (outcome: Result<(), UploadError>)
      requires Valid()
      modifies this, staging
      ensures Valid()
      ensures answers.created && answers.permitted && answers.joined && AllAccepted(items, |items|, limits) ==>
                outcome == if answers.copy.Copied? then Ok(()) else Err(CopyFailed)
      ensures outcome.Ok? <==>
                && answers.created && answers.permitted && answers.joined && answers.copy.Copied?
                && AllAccepted(items, |items|, limits)
      ensures outcome.Ok? ==> project == old(project) + (old(staging.tree) + Sent(items, |items|))
      ensures outcome.Err? && !outcome.error.CopyFailed? ==> project == old(project)
      ensures outcome == Err(CopyFailed) ==>
                && AllAccepted(items, |items|, limits) && answers.copy.CopyFails?
                && project == old(project) + PartOf(old(staging.tree) + Sent(items, |items|), answers.copy.copied)
      ensures outcome.Ok? || outcome == Err(CopyFailed) ==>
                && AllAccepted(items, |items|, limits)
                && staging.tree == AfterRemoval(old(staging.tree) + Sent(items, |items|), answers.removal)
      ensures answers.created && answers.permitted ==> (staged <==> !answers.removal.Removed?)
      ensures !answers.created ==> staged == old(staged) && staging.tree == old(staging.tree)
      ensures answers.created && !answers.permitted ==> staged && staging.tree == old(staging.tree)
    {
      if !answers.created {
        return Err(StagingFailed);
      }
      staged := true;
      if !answers.permitted {
        return Err(PermissionsFailed);
      }
      if !answers.joined {
        outcome := Err(ExtractionAborted);
      } else {
        var extracted := ValidateAndExtract(items, staging, limits);
        match extracted {
          case Err(e) => outcome := Err(Rejected(e));
          case Ok(_) =>
            match answers.copy {
              case Copied =>
                project := project + staging.tree;
                outcome := Ok(());
              case CopyFails(copied) =>
                project := project + PartOf(staging.tree, copied);
                outcome := Err(CopyFailed);
            }
        }
      }
      staged := !answers.removal.Removed?;
      staging.Keep(AfterRemoval(staging.tree, answers.removal));
    }
  }

  /** Every leftover path is one the upload writes again, or holds what the project has there anyway. */
  predicate Harmless(leftover: Tree, sent: Tree, project: Tree) {
    forall p :: p in leftover && p !in sent ==> p in project && project[p] == leftover[p]
  }

  lemma ArrivesExactly(leftover: Tree, sent: Tree, project: Tree)
    ensures project + (leftover + sent) == project + sent <==> Harmless(leftover, sent, project)
  {
    var got, wanted := project + (leftover + sent), project + sent;
    if got == wanted {
      forall p | p in leftover && p !in sent ensures p in project && project[p] == leftover[p] {
        assert p in got && got[p] == leftover[p];
        assert p in wanted;
      }
    }
  }

  /** An accepted upload arrives as it was sent if and only if whatever was left in the staging directory
      is harmless to it; a spawn interrupted before the removal, or a failed removal, leaves things there. */
  method AdoptInto(upload: Upload, items: seq<Item>, limits: Limits, answers: Answers) returns (outcome: Result<(), UploadError>)
    requires upload.Valid()
    modifies upload, upload.staging
    ensures upload.Valid()
    ensures outcome.Ok? ==>
              && AllAccepted(items, |items|, limits)
              && (upload.project == old(upload.project) + Sent(items, |items|)
                  <==> Harmless(old(upload.staging.tree), Sent(items, |items|), old(upload.project)))
  {
    ghost var left, before := upload.staging.tree, upload.project;
    outcome := upload.Adopt(items, limits, answers);
    if outcome.Ok? {
      ArrivesExactly(left, Sent(items, |items|), before);
    }
  }

  /** Two uploads one after another through one staging directory: the second arrives as it was sent if
      the first call, once it had come as far as staging anything, removed it. */
  method AdoptTwice(upload: Upload, first: seq<Item>, second: seq<Item>, limits: Limits, a: Answers, b: Answers)
    returns (earlier: Result<(), UploadError>, outcome: Result<(), UploadError>, ghost between: Tree)
    requires upload.Valid() && !upload.staged
    modifies upload, upload.staging
    ensures earlier.Err? && !earlier.error.CopyFailed? ==> between == old(upload.project)
    ensures outcome.Ok? && (a.created && a.permitted ==> a.removal.Removed?) ==>
              AllAccepted(second, |second|, limits) && upload.project == between + Sent(second, |second|)
  {
    earlier := upload.Adopt(first, limits, a);
    between := upload.project;
    outcome := AdoptInto(upload, second, limits, b);
  }

  const FAILS_AND_STAYS := Answers(true, true, true, CopyFails({}), RemovalFails({}))

  const SUCCEEDS := Answers(true, true, true, Copied, Removed)

  /** When copy and removal of one upload fail, the next one brings along exactly the paths it lacks
      itself. */
  method LeftoversArrive(upload: Upload, first: seq<Item>, second: seq<Item>, limits: Limits)
    requires upload.Valid() && !upload.staged
    requires AllAccepted(first, |first|, limits) && AllAccepted(second, |second|, limits)
    modifies upload, upload.staging
    ensures upload.project == old(upload.project) + (Sent(first, |first|) + Sent(second, |second|))
    ensures forall p :: p in Sent(first, |first|) && p !in Sent(second, |second|) ==>
              p in upload.project && upload.project[p] == Sent(first, |first|)[p]
  {
    ghost var project := upload.project;
    var earlier := upload.Adopt(first, limits, FAILS_AND_STAYS);
    assert upload.staging.tree == Sent(first, |first|);
    assert upload.project == project;
    var outcome := upload.Adopt(second, limits, SUCCEEDS);
  }

  /** Sending the same archive again after such a failure delivers it exactly as sent. */
  method RetryArrives(upload: Upload, items: seq<Item>, limits: Limits)
    requires upload.Valid() && !upload.staged && AllAccepted(items, |items|, limits)
    modifies upload, upload.staging
    ensures upload.project == old(upload.project) + Sent(items, |items|)
  {
    LeftoversArrive(upload, items, items, limits);
  }

  /** An archive of one small file. */
  function OneFile(name: string): seq<Item> {
    [Next(Entry(name, [name], Regular, name, Some(3), Unpacked, ModeSet))]
  }

  const SMALL := TarValidation.Limits(10, 10)

  lemma OneFileSends(name: string)
    ensures AllAccepted(OneFile(name), 1, SMALL) && Sent(OneFile(name), 1) == map[[name] := File(name)]
  {
    var items := OneFile(name);
    assert Total(items, 0) == 0 && Total(items, 1) == 3;
    assert [name][..1] == [name];
    assert Above([name]) == {[name]};
    assert Sent(items, 0) == map[];
    assert Sent(items, 1) == map[] + Placed(items[0].entry);
  }

  /** A file of a first upload that the second one does not have ends up in the project of the second. */
  method OldFileArrives(upload: Upload)
    requires upload.Valid() && !upload.staged && upload.project == map[]
    modifies upload, upload.staging
    ensures upload.project == map[["old.ts"] := File("old.ts"), ["new.ts"] := File("new.ts")]
  {
    OneFileSends("old.ts");
    OneFileSends("new.ts");
    LeftoversArrive(upload, OneFile("old.ts"), OneFile("new.ts"), SMALL);
  }
}
