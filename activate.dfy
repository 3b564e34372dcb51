/** `datagit activate <view_or_commit>` (`cli/activate.py`): refuse with staged
    changes, point HEAD at the view or, failing that, at the argument itself
    (detached), then look the commit up and hand its directory recipe to
    reconstruction. HEAD is rewritten before any lookup, so it stays rewritten
    when a lookup fails. */
module Activate {
  import opened Builtins
  import opened JsonValue
  import opened Disk
  import opened Repository
  import opened Command

  /** The HEAD text `activate` writes and the commit it activates: a view name
      gives a symbolic HEAD and the view's stripped text, anything else a
      detached HEAD holding the argument. `refs/heads/<target>` naming a
      directory exists but cannot be read. */
  function ActivationTarget(refsHeads: bool, views: map<string, string>, target: string): (r: Py<(string, string)>)
    ensures r.Raise? <==> refsHeads && NamesDirectory(target)
    ensures r.Raise? ==> r.error == IsADirectoryError
    ensures r.Return? && refsHeads && target in views ==> r.value == (SymbolicHead(target), Strip(views[target]))
    ensures r.Return? && !(refsHeads && target in views) ==> r.value == (target, target)
  {
    match ViewFile(refsHeads, views, target)
    case Directory => Raise(IsADirectoryError)
    case File(text) => Return((SymbolicHead(target), Strip(text)))
    case Absent => Return((target, target))
  }

  /** `activate_command` with the index read from `index.json`. `loads` is
      `json.loads` and `reconstruct` tells whether reconstruction of a directory
      recipe succeeds; `rebuilt` is the recipe it was given, if it ran. */
  method ActivateCommand(repo: Repo, target: string, loads: Bytes -> Option<Json>, reconstruct: Json -> bool)
    returns (o: Outcome, rebuilt: Option<Json>)
    requires repo.Valid()
    modifies repo
    ensures repo.Valid()
    ensures repo.objects.dirs == old(repo.objects.dirs)
    ensures repo.views == old(repo.views) && repo.refsHeads == old(repo.refsHeads)
    ensures repo.index == old(repo.index) && repo.metadata == old(repo.metadata)
    ensures old(repo.index) != map[] ==> o == Exit1(DirtyIndex) && rebuilt == None && repo.head == old(repo.head)
    ensures old(repo.index) == map[] ==>
      var t := ActivationTarget(old(repo.refsHeads), old(repo.views), target);
      if t.Raise? then o == Raised(t.error) && rebuilt == None && repo.head == old(repo.head)
      else
        && repo.head == Some(t.value.0)
        && (t.value.1 == [] ==> o == Ok && rebuilt == None)
        && (t.value.1 != [] ==> (o, rebuilt) == AfterLookup(ResolveDirRecipe(repo.objects.dirs, t.value.1, loads), reconstruct))
  {
    if repo.index != map[] {
      return Exit1(DirtyIndex), None;
    }
    var commit: string;
    var viewFile := ViewFile(repo.refsHeads, repo.views, target);
    if viewFile.Directory? {
      return Raised(IsADirectoryError), None;
    } else if viewFile.File? {
      commit := Strip(viewFile.content);
      repo.head := Some(SymbolicHead(target));
    } else {
      commit := target;
      repo.head := Some(target);
    }
    if commit == [] {
      return Ok, None;
    }
    rebuilt := None;
    var res := ResolveDirRecipe(repo.objects.dirs, commit, loads);
    if res.Raise? {
      o := Raised(res.error);
    } else if res.value == NoManifest {
      o := Exit1(CommitNotFound);
    } else if res.value == NoRecipeField {
      o := Exit1(CorruptCommit);
    } else if res.value == NoDirRecipe {
      o := Exit1(RecipeNotFound);
    } else {
      rebuilt := Some(res.value.dirRecipe);
      if reconstruct(res.value.dirRecipe) {
        o := Ok;
      } else {
        o := Exit1(ReconstructionFailed);
      }
    }
  }

  /** Activating a view leaves HEAD resolving (with `get_head_commit`) to the
      commit that was activated, or to None for an empty view. */
  lemma {:induction false} ActivatedViewIsHead(refsHeads: bool, views: map<string, string>, target: string)
    requires refsHeads && target in views && PlainFileName(target) && !IsSpace(target[|target| - 1])
    ensures ActivationTarget(refsHeads, views, target).Return?
    ensures var t := ActivationTarget(refsHeads, views, target).value;
      HeadCommit(Some(t.0), refsHeads, views) == Return(if t.1 != [] then Some(t.1) else None)
  {
    SymbolicHeadResolves(target, refsHeads, views);
  }

  /** Activating a commit hash that is not a view name leaves HEAD detached
      and resolving to that hash. */
  lemma {:induction false} ActivatedCommitIsHead(refsHeads: bool, views: map<string, string>, target: Digest)
    requires !(refsHeads && target in views)
    ensures ActivationTarget(refsHeads, views, target) == Return((target, target))
    ensures HeadCommit(Some(target), refsHeads, views) == Return(Some(target))
    ensures CurrentViewName(Some(target)) == None
  {
    DigestIsPlainFileName(target);
    DetachedHeadResolves(target, refsHeads, views);
  }
}
