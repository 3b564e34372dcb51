/** `datagit checkout <commit>` (`cli/checkout.py`), the legacy command: refuse
    with staged changes, look the commit up, reconstruct, and only then record
    the commit as `HEAD` in `metadata.json`. HEAD and the views are never
    touched. */
module Checkout {
  import opened Builtins
  import opened JsonValue
  import opened Disk
  import opened Repository
  import opened Command

  /** `load_metadata`: the file's contents, or the default when it is missing. */
  function LoadMetadata(metadata: Option<map<string, Json>>): (m: map<string, Json>)
    ensures metadata.Some? ==> m == metadata.value
    ensures metadata.None? ==> m == DefaultMetadata
  {
    if metadata.Some? then metadata.value else DefaultMetadata
  }

  /** `meta["HEAD"] = commit_hash` on the loaded metadata: `HEAD` holds the
      commit and every other key keeps its value. */
  function CheckedOutMetadata(metadata: Option<map<string, Json>>, commitHash: string): (m: map<string, Json>)
    ensures m.Keys == LoadMetadata(metadata).Keys + {"HEAD"}
    ensures m["HEAD"] == Str(commitHash)
    ensures forall k :: k in LoadMetadata(metadata) && k != "HEAD" ==> m[k] == LoadMetadata(metadata)[k]
  {
    LoadMetadata(metadata)["HEAD" := Str(commitHash)]
  }

  /** `checkout_command` with the index read from `index.json`; `loads`,
      `reconstruct` and `rebuilt` as for `activate`. */
  method CheckoutCommand(repo: Repo, commitHash: string, loads: Bytes -> Option<Json>, reconstruct: Json -> bool)
    returns (o: Outcome, rebuilt: Option<Json>)
    requires repo.Valid()
    modifies repo
    ensures repo.Valid()
    ensures repo.objects.dirs == old(repo.objects.dirs)
    ensures repo.head == old(repo.head) && repo.views == old(repo.views) && repo.refsHeads == old(repo.refsHeads)
    ensures repo.index == old(repo.index)
    ensures old(repo.index) != map[] ==> o == Exit1(DirtyIndex) && rebuilt == None && repo.metadata == old(repo.metadata)
    ensures old(repo.index) == map[] ==>
      (o, rebuilt) == AfterLookup(ResolveDirRecipe(repo.objects.dirs, commitHash, loads), reconstruct)
    ensures o == Ok ==> repo.metadata == Some(CheckedOutMetadata(old(repo.metadata), commitHash))
    ensures o != Ok ==> repo.metadata == old(repo.metadata)
  {
    if repo.index != map[] {
      return Exit1(DirtyIndex), None;
    }
    rebuilt := None;
    var res := ResolveDirRecipe(repo.objects.dirs, commitHash, loads);
    if res.Raise? {
      return Raised(res.error), None;
    } else if res.value == NoManifest {
      return Exit1(CommitNotFound), None;
    } else if res.value == NoRecipeField {
      return Exit1(CorruptCommit), None;
    } else if res.value == NoDirRecipe {
      return Exit1(RecipeNotFound), None;
    }
    var dirRecipe := res.value.dirRecipe;
    rebuilt := Some(dirRecipe);
    if !reconstruct(dirRecipe) {
      return Exit1(ReconstructionFailed), rebuilt;
    }
    var meta := LoadMetadata(repo.metadata);
    meta := meta["HEAD" := Str(commitHash)];
    repo.metadata := Some(meta);
    o := Ok;
  }

  /** Checking out a commit whose directory recipe is stored succeeds exactly
      when reconstruction does. */
  lemma {:induction false} CheckoutOfStoredCommit(dirs: map<string, map<string, Bytes>>, commitHash: string,
                                                  loads: Bytes -> Option<Json>, reconstruct: Json -> bool,
                                                  manifest: map<string, Json>, recipeHash: string, dirRecipe: Json)
    requires "manifests" in dirs && "recipes" in dirs
    requires !NamesDirectory(commitHash) && commitHash in dirs["manifests"] && dirs["manifests"][commitHash] != []
    requires loads(dirs["manifests"][commitHash]) == Some(Obj(manifest)) && manifest != map[]
    requires "recipe" in manifest && manifest["recipe"] == Str(recipeHash) && !NamesDirectory(recipeHash)
    requires recipeHash in dirs["recipes"] && dirs["recipes"][recipeHash] != []
    requires loads(dirs["recipes"][recipeHash]) == Some(dirRecipe) && Truthy(dirRecipe)
    ensures AfterLookup(ResolveDirRecipe(dirs, commitHash, loads), reconstruct)
      == (if reconstruct(dirRecipe) then Ok else Exit1(ReconstructionFailed), Some(dirRecipe))
  {
    NamespaceDirNames();
    assert GetManifest(dirs, commitHash, loads) == Return(Obj(manifest));
    GetRecipeStored(dirs, recipeHash, loads);
    assert ResolveDirRecipe(dirs, commitHash, loads) == Return(Resolved(dirRecipe));
  }
}
