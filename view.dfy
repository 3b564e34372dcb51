/** `datagit view [<name>] [-c <commit>]` (`cli/view.py`). With a name it
    creates `refs/heads/<name>` holding the start point; without one it would
    list the views, but that branch calls `repository.get_current_branch_name`,
    which `storage/repository.py` does not define. */
module View {
  import opened Builtins
  import opened JsonValue
  import opened Disk
  import opened Repository
  import opened Command

  /** The module-level names of `storage/repository.py`. */
  const RepositoryNames: set<string> := {
    "json", "Path", "Dict", "Any", "Optional", "metadata", "Console", "console",
    "get_object", "get_recipe", "get_manifest", "get_current_view_name",
    "get_head_commit", "update_current_view_head", "get_file_hash_from_last_commit"
  }

  /** `repository.get_current_branch_name`, which the listing calls, does not
      exist. */
  lemma ListingIsUndefined()
    ensures Attribute(RepositoryNames, "get_current_branch_name") == Raise(AttributeError)
    ensures Attribute(RepositoryNames, "get_current_view_name") == Return(())
  {
    assert "get_current_branch_name" !in RepositoryNames;
  }

  /** The commit a new view points at: the `-c` value when it is truthy, else
      what HEAD resolves to. */
  function StartPoint(startPoint: Option<string>, head: Option<string>, refsHeads: bool,
                      views: map<string, string>): (r: Py<Option<string>>)
    ensures startPoint.Some? && startPoint.value != [] ==> r == Return(startPoint)
    ensures !(startPoint.Some? && startPoint.value != []) ==> r == HeadCommit(head, refsHeads, views)
  {
    if startPoint.Some? && startPoint.value != [] then Return(startPoint)
    else HeadCommit(head, refsHeads, views)
  }

  /** `view_command`. */
  method ViewCommand(repo: Repo, viewName: Option<string>, startPoint: Option<string>) returns (o: Outcome)
    requires repo.Valid()
    modifies repo
    ensures repo.objects.dirs == old(repo.objects.dirs)
    ensures repo.head == old(repo.head) && repo.refsHeads == old(repo.refsHeads)
    ensures repo.index == old(repo.index) && repo.metadata == old(repo.metadata)
    ensures repo.Valid()
    ensures o != Ok ==> repo.views == old(repo.views)
    ensures viewName.None? || viewName.value == [] ==> o == Raised(AttributeError)
    ensures viewName.Some? && viewName.value != [] ==>
      var name := viewName.value;
      var start := StartPoint(startPoint, old(repo.head), old(repo.refsHeads), old(repo.views));
      if !ViewFile(old(repo.refsHeads), old(repo.views), name).Absent? then o == Exit1(ViewExists)
      else if start.Raise? then o == Raised(start.error)
      else if start.value.None? || start.value.value == [] then o == Exit1(NoCommitsYet)
      else if !old(repo.refsHeads) || '/' in name then o == Raised(FileNotFoundError)
      else o == Ok && repo.views == old(repo.views)[name := start.value.value]
  {
    if viewName.None? || viewName.value == [] {
      var listing := Attribute(RepositoryNames, "get_current_branch_name");
      ListingIsUndefined();
      return Raised(listing.error);
    }
    var name := viewName.value;
    if !ViewFile(repo.refsHeads, repo.views, name).Absent? {
      return Exit1(ViewExists);
    }
    var start := StartPoint(startPoint, repo.head, repo.refsHeads, repo.views);
    if start.Raise? {
      return Raised(start.error);
    }
    var commit := start.value;
    if commit.None? || commit.value == [] {
      return Exit1(NoCommitsYet);
    }
    var written := WriteViewFile(repo, name, commit.value);
    o := if written.Raise? then Raised(written.error) else Ok;
  }

  /** In a repository as `init` leaves it there is no `refs/heads` directory,
      and nothing else here creates one, so creating a view with a start point
      raises FileNotFoundError at the write. */
  method ViewInFreshRepository() returns (o: Outcome)
    ensures o == Raised(FileNotFoundError)
  {
    var repo := new Repo.Init();
    o := ViewCommand(repo, Some("feature"), Some("abc"));
  }

  /** A created view reads back as its start point, the other views read as
      before, and activating it makes HEAD resolve to that commit when the
      start point has no surrounding white space. */
  lemma {:induction false} CreatedViewReadsBack(views: map<string, string>, name: string, commit: string)
    requires PlainFileName(name) && !IsSpace(name[|name| - 1])
    requires commit != [] && Trimmed(commit)
    ensures ViewFile(true, views[name := commit], name) == File(commit)
    ensures forall v :: v != name ==> ViewFile(true, views[name := commit], v) == ViewFile(true, views, v)
    ensures HeadCommit(Some(SymbolicHead(name)), true, views[name := commit]) == Return(Some(commit))
  {
    ViewFileAfterWrite(views, name, commit);
    UpdateThenHeadCommit(name, views, commit);
  }
}
