/** What the ref-changing commands share: how a command ends, the module
    attribute lookups they depend on, and the step after the commit is known
    (`get_manifest` -> `recipe` -> `get_recipe` -> reconstruction). */
module Command {
  import opened Builtins
  import opened JsonValue
  import opened Repository

  /** Why a command printed an error and raised `typer.Exit(1)`. */
  datatype Reason =
    | DirtyIndex            // the staging index is not empty
    | CommitNotFound        // no (truthy) manifest for the commit
    | CorruptCommit         // the manifest has no (truthy) `recipe`
    | RecipeNotFound        // no (truthy) directory recipe
    | ReconstructionFailed  // reconstruction raised
    | ViewExists            // `refs/heads/<name>` exists already
    | NoCommitsYet          // no start point for a new view

  /** How a command ends: normally, with exit status 1, or with an exception
      that escapes it. */
  datatype Outcome = Ok | Exit1(reason: Reason) | Raised(error: PyError)

  /** Looking up `name` in a module that defines `defined`: Python raises
      AttributeError for any other name. */
  function Attribute(defined: set<string>, name: string): (r: Py<()>)
    ensures r.Return? <==> name in defined
    ensures r.Raise? ==> r.error == AttributeError
  {
    if name in defined then Return(()) else Raise(AttributeError)
  }

  /** The module-level names of `storage/metadata.py`: its two imports and its
      two functions. */
  const MetadataNames: set<string> := {"json", "Path", "load_metadata", "save_metadata"}

  /** The module-level names of `storage/core.py`. */
  const CoreNames: set<string> := {
    "hashlib", "json", "Path", "Dict", "List", "Any", "pl", "pa", "CHUNK_ROW_SIZE",
    "hash_content", "save_object", "serialize_chunk", "construct_merkle_tree_for_file"
  }

  /** `metadata.load_index` does not exist (the index loader lives in
      `storage/file.py`). */
  lemma LoadIndexIsUndefined()
    ensures Attribute(MetadataNames, "load_index") == Raise(AttributeError)
    ensures Attribute(MetadataNames, "load_metadata") == Return(())
  {
    assert "load_index" !in MetadataNames;
  }

  /** `activate_command` and `checkout_command` as written, once `find_repo`
      has found a repository: the first statement after that check calls
      `metadata.load_index`, so every such call of either ends with
      AttributeError before anything is read or written. */
  method LoadIndexAsWritten() returns (o: Outcome)
    ensures o == Raised(AttributeError)
  {
    var loadIndex := Attribute(MetadataNames, "load_index");
    LoadIndexIsUndefined();
    o := Raised(loadIndex.error);
  }

  /** `core.reconstruct_working_directory` does not exist either, so the call
      raises AttributeError inside the commands' `try`, which turns it into a
      failed reconstruction. */
  lemma ReconstructIsUndefined()
    ensures Attribute(CoreNames, "reconstruct_working_directory") == Raise(AttributeError)
  {
    assert "reconstruct_working_directory" !in CoreNames;
  }

  /** Reconstruction as the shown `core.py` provides it: it never succeeds. */
  function ReconstructAsShown(dirRecipe: Json): bool {
    Attribute(CoreNames, "reconstruct_working_directory").Return?
  }

  /** The end of `activate` and `checkout` once the commit is fixed: each lookup
      failure exits 1 with its own message, an exception escapes, and only a
      found directory recipe is handed to reconstruction (the second
      component), whose failure exits 1 too. */
  function AfterLookup(res: Py<Resolution>, reconstruct: Json -> bool): (r: (Outcome, Option<Json>))
    ensures r.1.Some? <==> res.Return? && res.value.Resolved?
    ensures r.1.Some? ==> r.1.value == res.value.dirRecipe
    ensures r.0 == Ok <==> r.1.Some? && reconstruct(r.1.value)
    ensures res.Raise? ==> r.0 == Raised(res.error)
    ensures res == Return(NoManifest) ==> r.0 == Exit1(CommitNotFound)
    ensures res == Return(NoRecipeField) ==> r.0 == Exit1(CorruptCommit)
    ensures res == Return(NoDirRecipe) ==> r.0 == Exit1(RecipeNotFound)
    ensures r.1.Some? && !reconstruct(r.1.value) ==> r.0 == Exit1(ReconstructionFailed)
  {
    match res
    case Raise(e) => (Raised(e), None)
    case Return(NoManifest) => (Exit1(CommitNotFound), None)
    case Return(NoRecipeField) => (Exit1(CorruptCommit), None)
    case Return(NoDirRecipe) => (Exit1(RecipeNotFound), None)
    case Return(Resolved(d)) => (if reconstruct(d) then Ok else Exit1(ReconstructionFailed), Some(d))
  }

  /** With the shown `core.py`, no lookup result ends a command normally. */
  lemma {:induction false} NoSuccessWithShownCore(res: Py<Resolution>)
    ensures AfterLookup(res, ReconstructAsShown).0 != Ok
  {
    if res.Return? && res.value.Resolved? {
      ReconstructIsUndefined();
      assert !ReconstructAsShown(res.value.dirRecipe);
    }
  }
}
