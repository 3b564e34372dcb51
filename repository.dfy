/** The readers of the repository state (`storage/repository.py`): object
    lookup, HEAD parsing and resolution, the chain from a commit to its
    directory recipe, and the one writer, `update_current_view_head`.

    The readers are functions of the fields they read; `json.loads` is the
    parameter `loads`, which yields None where Python raises JSONDecodeError
    (a ValueError). */
module Repository {
  import opened Builtins
  import opened JsonValue
  import opened Disk

  // ---------------------------------------------------------------------------
  // Objects

  /** `f"{obj_type.rstrip('s')}s"`: the namespace directory a lookup reads. */
  function NamespaceDir(objType: string): string {
    RStripChar(objType, 's') + "s"
  }

  /** The singular and the plural of a type name read the same directory, and
      normalising twice changes nothing. */
  lemma {:induction false} NamespaceDirPlural(objType: string)
    ensures NamespaceDir(objType + "s") == NamespaceDir(objType)
    ensures NamespaceDir(NamespaceDir(objType)) == NamespaceDir(objType)
  {
    var plural := objType + "s";
    assert plural[..|plural| - 1] == objType;
    var d := NamespaceDir(objType);
    var base := RStripChar(objType, 's');
    assert d[..|d| - 1] == base;
    assert RStripChar(d, 's') == RStripChar(base, 's');
    assert RStripChar(base, 's') == base;
  }

  /** The names the callers use land in the namespaces `init` creates. */
  lemma NamespaceDirNames()
    ensures NamespaceDir("recipe") == NamespaceDir("recipes") == "recipes"
    ensures NamespaceDir("manifest") == NamespaceDir("manifests") == "manifests"
    ensures NamespaceDir("chunk") == NamespaceDir("chunks") == "chunks"
  {
    NamespaceDirPlural("recipe");
    NamespaceDirPlural("manifest");
    NamespaceDirPlural("chunk");
  }

  /** `get_object`: the bytes of `<namespace>/<hash>` if that path exists, and
      None otherwise. A hash of "", "." or ".." names a directory, which
      `exists()` but cannot be read, when the namespace exists. */
  function GetObject(dirs: map<string, map<string, Bytes>>, objHash: string, objType: string): (r: Py<Option<Bytes>>)
    ensures r.Raise? <==> NamespaceDir(objType) in dirs && NamesDirectory(objHash)
    ensures r.Raise? ==> r.error == IsADirectoryError
    ensures r.Return? && r.value.Some? <==>
      NamespaceDir(objType) in dirs && !NamesDirectory(objHash) && objHash in dirs[NamespaceDir(objType)]
    ensures r.Return? && r.value.Some? ==> r.value.value == dirs[NamespaceDir(objType)][objHash]
  {
    var dir := NamespaceDir(objType);
    if dir !in dirs then Return(None)
    else if NamesDirectory(objHash) then Raise(IsADirectoryError)
    else if objHash in dirs[dir] then Return(Some(dirs[dir][objHash]))
    else Return(None)
  }

  /** Reading back what `save_object` stored: the hash of `content` yields
      `content`, or the bytes already filed under that name. */
  lemma GetAfterSave(dirs: map<string, map<string, Bytes>>, content: Bytes, objType: string,
                     lookupType: string, hash: Bytes -> Digest)
    requires objType in dirs && NamespaceDir(lookupType) == objType
    ensures GetObject(dirs[objType := Put(dirs[objType], content, hash)], hash(content), lookupType)
      == Return(Some(if hash(content) in dirs[objType] then dirs[objType][hash(content)] else content))
  {
    DigestIsPlainFileName(hash(content));
  }

  /** The shared body of `get_recipe` and `get_manifest`: missing or empty
      bytes give None, anything else is parsed. */
  function LoadObject(dirs: map<string, map<string, Bytes>>, objHash: string, objType: string,
                      loads: Bytes -> Option<Json>): (r: Py<Json>)
    ensures GetObject(dirs, objHash, objType).Raise? ==> r == Raise(GetObject(dirs, objHash, objType).error)
    ensures GetObject(dirs, objHash, objType) == Return(None) ==> r == Return(Null)
    ensures GetObject(dirs, objHash, objType) == Return(Some([])) ==> r == Return(Null)
    ensures forall b :: GetObject(dirs, objHash, objType) == Return(Some(b)) && b != [] ==>
      r == (if loads(b).Some? then Return(loads(b).value) else Raise(ValueError))
  {
    var content :- GetObject(dirs, objHash, objType);
    if content.None? || content.value == [] then Return(Null)
    else if loads(content.value).None? then Raise(ValueError)
    else Return(loads(content.value).value)
  }

  /** `get_recipe`. */
  function GetRecipe(dirs: map<string, map<string, Bytes>>, recipeHash: string, loads: Bytes -> Option<Json>): (r: Py<Json>)
    ensures "recipes" !in dirs ==> r == Return(Null)
    ensures "recipes" in dirs && NamesDirectory(recipeHash) ==> r == Raise(IsADirectoryError)
    ensures "recipes" in dirs && !NamesDirectory(recipeHash) ==>
      r == if recipeHash !in dirs["recipes"] || dirs["recipes"][recipeHash] == [] then Return(Null)
           else if loads(dirs["recipes"][recipeHash]).Some? then Return(loads(dirs["recipes"][recipeHash]).value)
           else Raise(ValueError)
  {
    NamespaceDirNames();
    LoadObject(dirs, recipeHash, "recipe", loads)
  }

  /** `get_manifest`. */
  function GetManifest(dirs: map<string, map<string, Bytes>>, manifestHash: string, loads: Bytes -> Option<Json>): (r: Py<Json>)
    ensures "manifests" !in dirs ==> r == Return(Null)
    ensures "manifests" in dirs && NamesDirectory(manifestHash) ==> r == Raise(IsADirectoryError)
    ensures "manifests" in dirs && !NamesDirectory(manifestHash) ==>
      r == if manifestHash !in dirs["manifests"] || dirs["manifests"][manifestHash] == [] then Return(Null)
           else if loads(dirs["manifests"][manifestHash]).Some? then Return(loads(dirs["manifests"][manifestHash]).value)
           else Raise(ValueError)
  {
    NamespaceDirNames();
    LoadObject(dirs, manifestHash, "manifest", loads)
  }

  /** A recipe that is stored with non-empty bytes comes back parsed; a recipe
      that is not stored comes back as None. */
  lemma {:induction false} GetRecipeStored(dirs: map<string, map<string, Bytes>>, h: string, loads: Bytes -> Option<Json>)
    requires "recipes" in dirs && !NamesDirectory(h)
    ensures h !in dirs["recipes"] ==> GetRecipe(dirs, h, loads) == Return(Null)
    ensures h in dirs["recipes"] && dirs["recipes"][h] != [] && loads(dirs["recipes"][h]).Some? ==>
      GetRecipe(dirs, h, loads) == Return(loads(dirs["recipes"][h]).value)
  {
    NamespaceDirNames();
  }

  // ---------------------------------------------------------------------------
  // HEAD

  const RefPrefix: string := "ref: "
  const HeadsPrefix: string := "refs/heads/"

  /** The text HEAD holds when it points at view `name`. */
  function SymbolicHead(name: string): string {
    RefPrefix + HeadsPrefix + name
  }

  /** `get_current_view_name`: the text after the last `/` of a stripped HEAD
      that starts with "ref: ", and None for a missing or a detached HEAD. */
  function CurrentViewName(head: Option<string>): (r: Option<string>)
    ensures r.Some? <==> head.Some? && StartsWith(Strip(head.value), RefPrefix)
    ensures r.Some? ==> '/' !in r.value
  {
    if head.None? then None
    else
      var content := Strip(head.value);
      if StartsWith(content, RefPrefix) then Some(AfterLast(content, '/')) else None
  }

  /** What `.datagit/<refPath>` names, for the ref paths a symbolic HEAD holds.
      Only `refs/heads` and the files directly inside it are modelled; any other
      path reads as missing. */
  function RefEntry(refsHeads: bool, views: map<string, string>, refPath: string): Entry {
    if refPath == "refs/heads" then (if refsHeads then Directory else Absent)
    else if StartsWith(refPath, HeadsPrefix) && '/' !in refPath[|HeadsPrefix|..] then
      ViewFile(refsHeads, views, refPath[|HeadsPrefix|..])
    else Absent
  }

  /** Reading the ref file a symbolic HEAD names: its stripped text, or None
      when the file is missing or blank; a directory cannot be read. */
  function ReadRef(refsHeads: bool, views: map<string, string>, refPath: string): (r: Py<Option<string>>)
    ensures r.Raise? <==> RefEntry(refsHeads, views, refPath).Directory?
    ensures r.Raise? ==> r.error == IsADirectoryError
    ensures r.Return? && r.value.Some? ==> r.value.value != [] && Trimmed(r.value.value)
  {
    match RefEntry(refsHeads, views, refPath)
    case Absent => Return(None)
    case Directory => Raise(IsADirectoryError)
    case File(text) =>
      var commit := Strip(text);
      Return(if commit != [] then Some(commit) else None)
  }

  /** `get_head_commit`. A symbolic HEAD resolves to the stripped text of the
      ref file it names (None when that is missing or blank); a detached HEAD
      of exactly 64 characters is itself the commit; anything else is None. */
  function HeadCommit(head: Option<string>, refsHeads: bool, views: map<string, string>): (r: Py<Option<string>>)
    ensures r.Raise? ==> r.error == IsADirectoryError
    ensures head.None? ==> r == Return(None)
    ensures r.Return? && r.value.Some? ==> r.value.value != [] && Trimmed(r.value.value)
    ensures head.Some? && !StartsWith(Strip(head.value), RefPrefix) ==>
      r == Return(if |Strip(head.value)| == 64 then Some(Strip(head.value)) else None)
  {
    if head.None? then Return(None)
    else
      var content := Strip(head.value);
      if StartsWith(content, RefPrefix) then
        RefPrefixSpace(content);
        ReadRef(refsHeads, views, AfterFirst(content, ' '))
      else if |content| == 64 then Return(Some(content))
      else Return(None)
  }

  /** A symbolic HEAD has a space to split at. */
  lemma RefPrefixSpace(content: string)
    requires StartsWith(content, RefPrefix)
    ensures content[4] == ' ' && ' ' in content
  {
    assert content[..|RefPrefix|] == RefPrefix;
    assert content[4] == content[..|RefPrefix|][4];
  }

  /** The ref path of a symbolic HEAD is everything after "ref: ". */
  lemma RefPathOfHead(content: string)
    requires StartsWith(content, RefPrefix)
    ensures ' ' in content && AfterFirst(content, ' ') == content[|RefPrefix|..]
  {
    assert content[..4] == "ref:";
    AfterFirstAt(content, ' ', 4);
  }

  /** HEAD as `activate` writes it for view `name` is already stripped and is
      symbolic. */
  lemma {:induction false} SymbolicHeadStripped(name: string)
    requires name != [] && !IsSpace(name[|name| - 1])
    ensures Strip(SymbolicHead(name)) == SymbolicHead(name)
    ensures StartsWith(SymbolicHead(name), RefPrefix)
  {
    var s := SymbolicHead(name);
    assert s == RefPrefix + (HeadsPrefix + name);
    ConcatParts(RefPrefix, HeadsPrefix + name);
    assert Trimmed(s);
    StripTrimmed(s);
  }

  /** The view name read back from `ref: refs/heads/<name>` is `name`. */
  lemma {:induction false} SymbolicHeadViewName(name: string)
    requires '/' !in name
    ensures AfterLast(SymbolicHead(name), '/') == name
  {
    AfterLastOfTail(RefPrefix + HeadsPrefix, name, '/');
  }

  /** HEAD written as `ref: refs/heads/<name>` names view `name`. */
  lemma {:induction false} SymbolicHeadNamesView(name: string)
    requires PlainFileName(name) && !IsSpace(name[|name| - 1])
    ensures CurrentViewName(Some(SymbolicHead(name))) == Some(name)
  {
    SymbolicHeadStripped(name);
    SymbolicHeadViewName(name);
  }

  /** A symbolic HEAD resolves through the path after "ref: ". */
  lemma HeadCommitOfSymbolic(text: string, refsHeads: bool, views: map<string, string>)
    ensures StartsWith(Strip(text), RefPrefix) ==>
      HeadCommit(Some(text), refsHeads, views) == ReadRef(refsHeads, views, Strip(text)[|RefPrefix|..])
  {
    if StartsWith(Strip(text), RefPrefix) {
      RefPathOfHead(Strip(text));
    }
  }

  /** The ref path `refs/heads/<name>` reads view `name`. */
  lemma ReadViewRef(name: string, refsHeads: bool, views: map<string, string>)
    requires PlainFileName(name)
    ensures ReadRef(refsHeads, views, HeadsPrefix + name)
      == if refsHeads && name in views then Return(if Strip(views[name]) != [] then Some(Strip(views[name])) else None)
         else Return(None)
  {
    ConcatParts(HeadsPrefix, name);
    assert HeadsPrefix + name != "refs/heads" by {
      assert |HeadsPrefix + name| > |"refs/heads"|;
    }
    assert RefEntry(refsHeads, views, HeadsPrefix + name) == ViewFile(refsHeads, views, name);
  }

  /** HEAD written as `ref: refs/heads/<name>` resolves through that view's file. */
  lemma {:induction false} SymbolicHeadResolves(name: string, refsHeads: bool, views: map<string, string>)
    requires PlainFileName(name) && !IsSpace(name[|name| - 1])
    ensures HeadCommit(Some(SymbolicHead(name)), refsHeads, views)
      == if refsHeads && name in views then Return(if Strip(views[name]) != [] then Some(Strip(views[name])) else None)
         else Return(None)
  {
    var s := SymbolicHead(name);
    assert s == RefPrefix + (HeadsPrefix + name);
    ConcatParts(RefPrefix, HeadsPrefix + name);
    SymbolicHeadStripped(name);
    HeadCommitOfSymbolic(s, refsHeads, views);
    assert Strip(s)[|RefPrefix|..] == HeadsPrefix + name;
    ReadViewRef(name, refsHeads, views);
  }

  /** A commit hash has no surrounding white space and does not start with
      "ref: " (its fourth character is a hex digit, not ':'). */
  lemma DigestIsDetached(h: Digest)
    ensures Trimmed(h) && !StartsWith(h, RefPrefix)
  {
    assert IsHexDigit(h[0]) && IsHexDigit(h[63]);
    assert IsHexDigit(h[3]) && h[3] != RefPrefix[3];
    assert h[..|RefPrefix|][3] == h[3];
  }

  /** A detached HEAD that holds a commit hash resolves to that hash and has
      no view name. */
  lemma {:induction false} DetachedHeadResolves(commit: Digest, refsHeads: bool, views: map<string, string>)
    ensures CurrentViewName(Some(commit)) == None
    ensures HeadCommit(Some(commit), refsHeads, views) == Return(Some(commit))
  {
    DigestIsDetached(commit);
    StripTrimmed(commit);
  }

  /** `(refs/heads/<name>).write_text(text)`: writing below a missing
      directory raises FileNotFoundError (the model has no directories below
      `refs/heads`), a name that stands for `refs/heads` itself or its parent
      names a directory, and otherwise the view file holds `text`. */
  method WriteViewFile(repo: Repo, name: string, text: string) returns (r: Py<()>)
    requires repo.Valid()
    modifies repo
    ensures repo.head == old(repo.head) && repo.refsHeads == old(repo.refsHeads)
    ensures repo.index == old(repo.index) && repo.metadata == old(repo.metadata)
    ensures repo.Valid()
    ensures r == if !old(repo.refsHeads) || '/' in name then Raise(FileNotFoundError)
                 else if NamesDirectory(name) then Raise(IsADirectoryError)
                 else Return(())
    ensures r.Raise? ==> repo.views == old(repo.views)
    ensures r.Return? ==> repo.views == old(repo.views)[name := text]
  {
    if !repo.refsHeads || '/' in name {
      return Raise(FileNotFoundError);
    }
    if NamesDirectory(name) {
      return Raise(IsADirectoryError);
    }
    repo.views := repo.views[name := text];
    return Return(());
  }

  /** `update_current_view_head`: refuse in a detached state, else overwrite
      `refs/heads/<current view>` with `commitHash`. */
  method UpdateCurrentViewHead(repo: Repo, commitHash: string) returns (r: Py<()>)
    requires repo.Valid()
    modifies repo
    ensures repo.head == old(repo.head) && repo.refsHeads == old(repo.refsHeads)
    ensures repo.index == old(repo.index) && repo.metadata == old(repo.metadata)
    ensures repo.Valid()
    ensures var name := CurrentViewName(old(repo.head));
      name.None? || name.value == [] ==> r == Raise(RuntimeError)
    ensures var name := CurrentViewName(old(repo.head));
      name.Some? && name.value != [] ==>
        r == if !old(repo.refsHeads) then Raise(FileNotFoundError)
             else if NamesDirectory(name.value) then Raise(IsADirectoryError)
             else Return(())
    ensures r.Raise? ==> repo.views == old(repo.views)
    ensures r.Return? ==> repo.views == old(repo.views)[CurrentViewName(old(repo.head)).value := commitHash]
  {
    var viewName := CurrentViewName(repo.head);
    if viewName.None? || viewName.value == [] {
      return Raise(RuntimeError);
    }
    r := WriteViewFile(repo, viewName.value, commitHash);
  }

  /** After advancing the current view to `commitHash`, HEAD resolves to the
      stripped `commitHash` (so to `commitHash` itself when it is non-empty and
      has no surrounding white space), and no other view changed. */
  lemma {:induction false} UpdateThenHeadCommit(name: string, views: map<string, string>, commitHash: string)
    requires PlainFileName(name) && !IsSpace(name[|name| - 1])
    ensures CurrentViewName(Some(SymbolicHead(name))) == Some(name)
    ensures HeadCommit(Some(SymbolicHead(name)), true, views[name := commitHash])
      == Return(if Strip(commitHash) != [] then Some(Strip(commitHash)) else None)
    ensures commitHash != [] && Trimmed(commitHash) ==>
      HeadCommit(Some(SymbolicHead(name)), true, views[name := commitHash]) == Return(Some(commitHash))
  {
    SymbolicHeadNamesView(name);
    var views' := views[name := commitHash];
    SymbolicHeadResolves(name, true, views');
    assert name in views' && views'[name] == commitHash;
    if commitHash != [] && Trimmed(commitHash) {
      StripTrimmed(commitHash);
    }
  }

  // ---------------------------------------------------------------------------
  // From a commit to its directory recipe

  /** Where the chain manifest -> `recipe` -> directory recipe stops. */
  datatype Resolution =
    | NoManifest              // the manifest is missing, empty or falsy
    | NoRecipeField           // the manifest's `recipe` is missing or falsy
    | NoDirRecipe             // the directory recipe is missing, empty or falsy
    | Resolved(dirRecipe: Json)

  /** The lookups `activate`, `checkout` and `get_file_hash_from_last_commit`
      share: `get_manifest(commit)`, `.get("recipe")`, `get_recipe(...)`, each
      result tested for truth. A manifest that is not a dict raises
      AttributeError at `.get`, a `recipe` value that is not a string raises
      TypeError when it is used as a path. */
  function ResolveDirRecipe(dirs: map<string, map<string, Bytes>>, commit: string, loads: Bytes -> Option<Json>): (r: Py<Resolution>)
    ensures r == Return(NoManifest) <==> GetManifest(dirs, commit, loads).Return? && !Truthy(GetManifest(dirs, commit, loads).value)
    ensures r.Return? && r.value.Resolved? ==> Truthy(r.value.dirRecipe)
    ensures GetManifest(dirs, commit, loads).Raise? ==> r == Raise(GetManifest(dirs, commit, loads).error)
    ensures forall m :: GetManifest(dirs, commit, loads) == Return(m) && Truthy(m) && !m.Obj? ==> r == Raise(AttributeError)
    ensures forall m ::
      (GetManifest(dirs, commit, loads) == Return(m) && Truthy(m) && m.Obj? &&
       !Truthy(if "recipe" in m.fields then m.fields["recipe"] else Null)) ==> r == Return(NoRecipeField)
    ensures forall m ::
      (GetManifest(dirs, commit, loads) == Return(m) && Truthy(m) && m.Obj? && "recipe" in m.fields &&
       Truthy(m.fields["recipe"]) && !m.fields["recipe"].Str?) ==> r == Raise(TypeError)
    ensures forall m :: GetManifest(dirs, commit, loads) == Return(m) && Truthy(m) && m.Obj? && "recipe" in m.fields && m.fields["recipe"].Str? ==>
      r == (var d := GetRecipe(dirs, m.fields["recipe"].s, loads);
            if m.fields["recipe"].s == [] then Return(NoRecipeField)
            else if d.Raise? then Raise(d.error)
            else if Truthy(d.value) then Return(Resolved(d.value))
            else Return(NoDirRecipe))
  {
    var manifest :- GetManifest(dirs, commit, loads);
    if !Truthy(manifest) then Return(NoManifest)
    else
      var dirRecipeHash :- Get(manifest, "recipe");
      if !Truthy(dirRecipeHash) then Return(NoRecipeField)
      else
        var recipeName :- AsPathPart(dirRecipeHash);
        var dirRecipe :- GetRecipe(dirs, recipeName, loads);
        if !Truthy(dirRecipe) then Return(NoDirRecipe) else Return(Resolved(dirRecipe))
  }

  /** `dir_recipe.get("files", {}).get(file_path)`. */
  function FilesEntry(dirRecipe: Json, filePath: string): (r: Py<Json>)
    ensures !dirRecipe.Obj? ==> r == Raise(AttributeError)
    ensures dirRecipe.Obj? && "files" !in dirRecipe.fields ==> r == Return(Null)
    ensures dirRecipe.Obj? && "files" in dirRecipe.fields ==>
      var files := dirRecipe.fields["files"];
      r == if !files.Obj? then Raise(AttributeError)
           else if filePath in files.fields then Return(files.fields[filePath])
           else Return(Null)
  {
    var files :- GetOr(dirRecipe, "files", Obj(map[]));
    Get(files, filePath)
  }

  /** `get_file_hash_from_last_commit`: follow HEAD to its commit, then the
      chain, then `files[path]`; None as soon as a link is missing. */
  function FileHashFromLastCommit(dirs: map<string, map<string, Bytes>>, head: Option<string>, refsHeads: bool,
                                  views: map<string, string>, filePath: string, loads: Bytes -> Option<Json>): (r: Py<Json>)
    ensures HeadCommit(head, refsHeads, views).Raise? ==> r == Raise(HeadCommit(head, refsHeads, views).error)
    ensures HeadCommit(head, refsHeads, views) == Return(None) ==> r == Return(Null)
    ensures forall c :: HeadCommit(head, refsHeads, views) == Return(Some(c)) && ResolveDirRecipe(dirs, c, loads).Raise? ==>
      r == Raise(ResolveDirRecipe(dirs, c, loads).error)
    ensures forall c :: HeadCommit(head, refsHeads, views) == Return(Some(c)) ==>
      (ResolveDirRecipe(dirs, c, loads).Return? && !ResolveDirRecipe(dirs, c, loads).value.Resolved? ==> r == Return(Null))
    ensures forall c, d ::
      HeadCommit(head, refsHeads, views) == Return(Some(c)) && ResolveDirRecipe(dirs, c, loads) == Return(Resolved(d)) ==>
        r == FilesEntry(d, filePath)
  {
    var commit :- HeadCommit(head, refsHeads, views);
    if commit.None? || commit.value == [] then Return(Null)
    else
      var res :- ResolveDirRecipe(dirs, commit.value, loads);
      if !res.Resolved? then Return(Null)
      else
        FilesEntry(res.dirRecipe, filePath)
  }
}
