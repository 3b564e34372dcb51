/** The `.datagit` control directory, the only state the DataGit commands
    share: the three object namespaces, HEAD, the view files under
    `refs/heads/`, the staging index `index.json` and the legacy
    `metadata.json`. */
module Disk {
  import opened Builtins
  import opened JsonValue

  newtype byte = x: int | 0 <= x < 256
  type Bytes = seq<byte>

  predicate IsHexDigit(c: char) {
    '0' <= c <= '9' || 'a' <= c <= 'f'
  }

  /** What `hashlib.sha256(...).hexdigest()` returns: 64 lower-case hex digits. */
  predicate IsHexDigest(s: string) {
    |s| == 64 && forall k :: 0 <= k < |s| ==> IsHexDigit(s[k])
  }

  type Digest = s: string | IsHexDigest(s) witness Zeros(64)

  function Zeros(n: nat): (r: string)
    ensures |r| == n && forall k :: 0 <= k < n ==> r[k] == '0'
  {
    if n == 0 then "" else Zeros(n - 1) + "0"
  }

  /** A name that pathlib takes to be the directory itself or its parent:
      `dir / ""` and `dir / "."` are `dir`, and `dir / ".."` is its parent. */
  predicate NamesDirectory(name: string) {
    name == "" || name == "." || name == ".."
  }

  /** A name that stands for an ordinary file directly inside a directory. */
  predicate PlainFileName(name: string) {
    !NamesDirectory(name) && '/' !in name
  }

  lemma {:induction false} DigestIsPlainFileName(h: Digest)
    ensures PlainFileName(h)
  {
  }

  /** One `save_object` on one namespace: `content` is written under its hash
      unless a file of that name exists already. */
  function Put(store: map<string, Bytes>, content: Bytes, hash: Bytes -> Digest): map<string, Bytes> {
    if hash(content) in store then store else store[hash(content) := content]
  }

  /** What a path names on disk. */
  datatype Entry = Absent | Directory | File(content: string)

  /** The object namespaces `init` creates. */
  const ObjectDirs: set<string> := {"chunks", "recipes", "manifests"}

  /** The default `load_metadata` returns when `metadata.json` is missing. */
  const DefaultMetadata: map<string, Json> :=
    map["HEAD" := Null, "branch" := Str("main"), "commits" := Arr([])]

  /** The object namespaces, which `init` creates directly inside `.datagit`:
      directory name -> file name (a hash) -> bytes. A namespace directory
      exists exactly when it is a key. */
  class ObjectStore {
    var dirs: map<string, map<string, Bytes>>

    ghost predicate Valid()
      reads this
    {
      ObjectDirs <= dirs.Keys
    }

    constructor Init()
      ensures Valid()
      ensures dirs == map["chunks" := map[], "recipes" := map[], "manifests" := map[]]
    {
      dirs := map["chunks" := map[], "recipes" := map[], "manifests" := map[]];
    }
  }

  class Repo {
    const objects: ObjectStore
    /** The text of `HEAD`, or None when the file does not exist. */
    var head: Option<string>
    /** Whether the directory `refs/heads/` exists. */
    var refsHeads: bool
    /** The view files: name -> text of `refs/heads/<name>`. */
    var views: map<string, string>
    /** The staging index `index.json` (an absent file reads as `{}`). */
    var index: map<string, Json>
    /** The legacy `metadata.json`, or None when the file does not exist. */
    var metadata: Option<map<string, Json>>

    ghost predicate Valid()
      reads this, objects
    {
      && objects.Valid()
      && (!refsHeads ==> views == map[])
      && (forall name :: name in views ==> PlainFileName(name))
    }

    /** The layout `datagit init` creates: the three object namespaces, an
        initial `metadata.json` and an empty `index.json`; it creates neither
        `HEAD` nor `refs/heads/`. */
    constructor Init()
      ensures Valid()
      ensures fresh(objects)
      ensures objects.dirs == map["chunks" := map[], "recipes" := map[], "manifests" := map[]]
      ensures head == None && !refsHeads && views == map[] && index == map[]
      ensures metadata == Some(map["HEAD" := Null, "branch" := Str("main")])
    {
      objects := new ObjectStore.Init();
      head := None;
      refsHeads := false;
      views := map[];
      index := map[];
      metadata := Some(map["HEAD" := Null, "branch" := Str("main")]);
    }
  }

  /** What `refs/heads/<name>` names. */
  function ViewFile(refsHeads: bool, views: map<string, string>, name: string): (e: Entry)
    ensures e.File? <==> refsHeads && name in views && !NamesDirectory(name)
    ensures e.Directory? <==> refsHeads && NamesDirectory(name)
    ensures e.File? ==> e.content == views[name]
  {
    if !refsHeads then Absent
    else if NamesDirectory(name) then Directory
    else if name in views then File(views[name])
    else Absent
  }

  /** Writing `text` to view `name` changes what that one path reads and no
      other. */
  lemma ViewFileAfterWrite(views: map<string, string>, name: string, text: string)
    requires !NamesDirectory(name)
    ensures ViewFile(true, views[name := text], name) == File(text)
    ensures forall v :: v != name ==> ViewFile(true, views[name := text], v) == ViewFile(true, views, v)
  {
  }
}
