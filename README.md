# DataGit core in Dafny

DataGit is version control for tabular data. A CSV file is cut into column
chunks of 10,000 rows each. Every chunk is stored once, under the SHA-256 hash
of its bytes. Above the chunks sits a small Merkle tree of JSON recipes: one
recipe per column, which lists the column's chunk hashes in row order, and one
recipe per file, which lists the columns. A commit (a "manifest") points at a
directory recipe that maps file paths to file recipes. Views (branches) are
ref files under `refs/heads/`. `HEAD` holds either `ref: refs/heads/<view>`
or a bare commit hash (a "detached" HEAD).

This project models:

- the object store and the recipe tree of `storage/core.py`;
- the readers and the one writer of `storage/repository.py`;
- the ref-changing commands `activate`, `view <name>` and `checkout`.

## Structure

- `builtins.dfy` (`Builtins`): Python exceptions as `Py<T>`, plus the string
  operations the source uses: `strip`, `rstrip('s')`, `split("/")[-1]` and
  `split(" ", 1)[1]`.
- `json.dfy` (`JsonValue`): JSON values, Python truthiness, and `dict.get`.
- `disk.dfy` (`Disk`): the on-disk state.
  - `ObjectStore` holds the namespaces `chunks`, `recipes` and `manifests`,
    which sit directly in `.datagit/`.
  - `Repo` holds `HEAD`, `refs/heads/`, `index.json` and `metadata.json`.
  - Both are classes, because the commands overwrite these files in place.
  - `Put` is one write-if-absent save into a namespace, the state change that
    `save_object` makes and `get_object` reads back.
- `core.dfy` (`Core`): `save_object`, the chunking, and
  `construct_merkle_tree_for_file` with its two nested loops.
- `repository.dfy` (`Repository`): `get_object`, `get_recipe`,
  `get_manifest`, `get_current_view_name`, `get_head_commit`,
  `update_current_view_head` and `get_file_hash_from_last_commit`.
- `command.dfy` (`Command`): how a command ends, and what `activate` and
  `checkout` share once the commit is known.
- `activate.dfy`, `view.dfy`, `checkout.dfy`: the three commands.

## Modelling choices

- **Foreign functions are parameters.** These are SHA-256, the Arrow IPC
  serialisation of a chunk, `json.dumps(sort_keys=True)` (`Core.Codec`),
  `json.loads` (`loads`, where None means JSONDecodeError), `pl.read_csv`
  (`source`, where None means it raised), and reconstruction of the working
  directory (`reconstruct`).
  - Each one is a Dafny function, so the model is deterministic by
    construction.
  - No hash function is assumed injective. Where a name is already taken,
    `save_object` keeps the old bytes, and the contracts say so.
- **The file tree is not modelled directly.**
  - `refs/heads/<name>` is modelled through `refsHeads` (whether that
    directory exists) and `views` (file name to text).
  - The names `""`, `.` and `..` name a directory (`Disk.NamesDirectory`).
    Reading one raises IsADirectoryError. Writing below a missing directory
    raises FileNotFoundError.
- **Exceptions are values.** A Python exception is `Raise(e)`. A command
  either ends normally (`Ok`), ends with `typer.Exit(1)` after printing an
  error (`Exit1(reason)`), or lets an exception escape (`Raised(e)`).

## Model

| member | source | states |
|---|---|---|
| Core.SaveObject | src/datagit/storage/core.py:21-36 | returns the content's hash. It writes the content under that hash only when the name is absent, so existing bytes are never overwritten. A missing namespace directory raises FileNotFoundError and changes nothing |
| Core.PutSpec | src/datagit/storage/core.py:27-34 | one save adds exactly the content's hash to the namespace. Existing files keep their bytes. A new name holds the content. Saving twice equals saving once |
| Core.PutAllSpec | src/datagit/storage/core.py:27-34 | after a sequence of saves, every content's hash is present and every old file is unchanged. Every new name is the hash of some saved content |
| Core.PutAllIdempotent | src/datagit/storage/core.py:32-34 | deduplication: saving the same contents a second time leaves the namespace as one save left it |
| Core.PutAllContentAddressed | src/datagit/storage/core.py:27-34 | a namespace whose every file is named by the hash of its bytes stays that way under any sequence of saves |
| Core.ChunksFromCount | src/datagit/storage/core.py:70 | `range(start, n, 10000)` yields ceil((n - start) / 10000) chunks, and none when start >= n |
| Core.ChunkShape | src/datagit/storage/core.py:70-72 | a column of h rows is cut into ceil(h / 10000) chunks. Chunk k is rows [10000 k, min(10000 (k+1), h)). Each chunk is non-empty and holds at most 10000 rows. All chunks but the last are full |
| Core.ChunksConcat | src/datagit/storage/core.py:70-72 | concatenating the chunks in order gives back the column: no row is lost or repeated |
| Core.EmptyColumnHasNoChunks | src/datagit/storage/core.py:70 | a table of height 0 yields no chunks |
| Core.SaveColumnChunks | src/datagit/storage/core.py:69-75 | the inner loop returns the hash of every serialised chunk in row order. It changes only `chunks`, to the namespace after saving those chunks in order |
| Core.SaveColumn | src/datagit/storage/core.py:67-84 | one column's body returns the `{"name", "recipe"}` entry naming the column recipe's hash. It saves the column's chunks into `chunks` and its `{"chunks": [...]}` recipe into `recipes` |
| Core.SaveColumns | src/datagit/storage/core.py:66-84 | the column loop returns one entry per column, in `df.columns` order. It stores every column's chunks and recipes, column after column |
| Core.ColumnEntriesInOrder | src/datagit/storage/core.py:66-84 | `column_recipes` holds one `{"name", "recipe"}` entry per column, and entry j names column j and its column recipe's hash, in `df.columns` order |
| Core.ColumnRecipeListsChunks | src/datagit/storage/core.py:69-81 | a column recipe lists one hash per chunk. Entry k is the hash of the serialised rows [10000 k, min(10000 (k+1), h)) |
| Core.TreeIsStored | src/datagit/storage/core.py:53-94 | after a construction, every chunk a column recipe lists is in `chunks`. Every column recipe and the file recipe are in `recipes`. Files that existed before keep their bytes |
| Core.ConstructTwice | src/datagit/storage/core.py:53-94 | constructing the tree of the same table twice leaves the store as constructing it once |
| Core.ConstructMerkleTreeForFile | src/datagit/storage/core.py:53-94 | a parse failure raises IOError before anything is saved. Otherwise it returns the hash of `{"type": "columnar", "columns": [...]}`, whose column entries are in column order. The store is then exactly the old store plus the whole tree |
| JsonValue.Truthy | src/datagit/storage/repository.py:98-105 | Python's truth test: a value is false exactly when it is `None`, `False`, `0`, `""`, `[]` or `{}` |
| JsonValue.GetOr | src/datagit/storage/repository.py:108 | `d.get(key, default)` on a dict gives the value under the key, or the default when the key is absent. On anything else it raises AttributeError |
| JsonValue.Get | src/datagit/storage/repository.py:101 | `d.get(key)` on a dict gives the value under the key, or None when the key is absent. On anything else it raises AttributeError |
| JsonValue.AsPathPart | src/datagit/storage/repository.py:17 | `directory / value` accepts a `str` as it is and raises TypeError for any other value |
| Repository.NamespaceDirPlural | src/datagit/storage/repository.py:15 | `rstrip('s') + 's'` maps a type name and its plural to the same directory, and applying it twice changes nothing |
| Repository.NamespaceDirNames | src/datagit/storage/repository.py:15 | `recipe`, `manifest` and `chunk` and their plurals read the namespaces `init` creates |
| Repository.GetObject | src/datagit/storage/repository.py:13-20 | returns the stored bytes exactly when the namespace and the object file exist, and None when either is missing. A hash naming a directory raises IsADirectoryError |
| Repository.GetAfterSave | src/datagit/storage/repository.py:13-20 | round trip with `save_object`: after `Put`, the hash of a saved content reads back as that content, or as the bytes already filed under that name |
| Repository.LoadObject | src/datagit/storage/repository.py:22-34 | missing or empty bytes give None. Other bytes are parsed, and a parse failure raises ValueError. A read error propagates |
| Repository.GetRecipe | src/datagit/storage/repository.py:22-27 | `get_recipe` reads `recipes/<hash>`. A missing namespace, a missing file or empty bytes give None, a directory name raises IsADirectoryError, and other bytes are parsed. A parse failure raises ValueError |
| Repository.GetManifest | src/datagit/storage/repository.py:29-34 | `get_manifest` reads `manifests/<hash>`. A missing namespace, a missing file or empty bytes give None, a directory name raises IsADirectoryError, and other bytes are parsed. A parse failure raises ValueError |
| Repository.GetRecipeStored | src/datagit/storage/repository.py:22-27 | a recipe stored with non-empty, parseable bytes comes back parsed. A recipe that is not stored comes back as None |
| Repository.CurrentViewName | src/datagit/storage/repository.py:38-51 | a name is returned exactly when HEAD exists and its stripped text starts with `ref: `. The name contains no `/` |
| Repository.ReadRef | src/datagit/storage/repository.py:66-69 | reading the ref file raises exactly when the path names a directory. A commit it returns is non-empty and has no surrounding white space |
| Repository.HeadCommit | src/datagit/storage/repository.py:53-74 | a missing HEAD gives None. A detached HEAD is the commit exactly when its stripped text is 64 characters long. Any commit returned is non-empty and stripped |
| Repository.HeadCommitOfSymbolic | src/datagit/storage/repository.py:62-69 | a HEAD whose stripped text starts with `ref: ` resolves exactly as the ref file at the path after `ref: ` reads |
| Repository.ReadViewRef | src/datagit/storage/repository.py:66-69 | the ref path `refs/heads/<name>` reads the stripped text of view `name`. It gives None when `refs/heads` or the view file is missing, or when the text is blank |
| Repository.SymbolicHeadNamesView | src/datagit/storage/repository.py:45-49 | HEAD written as `ref: refs/heads/<name>` names view `name` |
| Repository.SymbolicHeadResolves | src/datagit/storage/repository.py:62-69 | HEAD written as `ref: refs/heads/<name>` resolves to the stripped text of that view's file. It is None when the file is missing or blank |
| Repository.DetachedHeadResolves | src/datagit/storage/repository.py:70-72 | a HEAD holding a commit hash resolves to that hash and has no view name |
| Repository.WriteViewFile | src/datagit/storage/repository.py:86-87 | writing `refs/heads/<name>` raises FileNotFoundError when `refs/heads` is missing or the name has a `/`, and IsADirectoryError for a name that stands for a directory. Otherwise exactly that view file now holds the text. HEAD, the index and the metadata are untouched |
| Repository.UpdateCurrentViewHead | src/datagit/storage/repository.py:76-87 | a detached or missing HEAD raises RuntimeError and nothing changes. Otherwise `refs/heads/<view>` is overwritten with the commit, or FileNotFoundError or IsADirectoryError is raised. HEAD and the other files are untouched |
| Repository.UpdateThenHeadCommit | src/datagit/storage/repository.py:76-87 | after the current view is advanced, HEAD still names that view and resolves to the new commit |
| Repository.ResolveDirRecipe | src/datagit/storage/repository.py:98-105 | an error from `get_manifest` propagates. A falsy manifest gives NoManifest exactly. A truthy manifest that is not a dict raises AttributeError at `.get`. A missing or falsy `recipe` gives NoRecipeField. A truthy `recipe` that is not a string raises TypeError. A string `recipe` gives the directory recipe when it is truthy, NoDirRecipe when it is falsy, and propagates the error of `get_recipe`. A found directory recipe is truthy |
| Repository.FilesEntry | src/datagit/storage/repository.py:108 | `files` defaults to `{}`. A missing path gives None. A recipe or `files` value that is not a dict raises AttributeError |
| Repository.FileHashFromLastCommit | src/datagit/storage/repository.py:89-108 | with no commit at HEAD, or when a link of the chain is missing, the answer is None. When HEAD's commit has a directory recipe, the answer is that recipe's `files` entry for the path. Errors from reading HEAD or the chain propagate |
| Command.Attribute | src/datagit/storage/metadata.py:1-14 | looking up a name in a module succeeds exactly when the module defines it. Otherwise it raises AttributeError |
| Command.LoadIndexIsUndefined | src/datagit/storage/metadata.py:1-14 | `metadata.load_index` raises AttributeError, while `metadata.load_metadata` exists |
| Command.LoadIndexAsWritten | src/datagit/cli/activate.py:27 | the first statement after the repository check in `activate_command` (and in `checkout_command`, checkout.py:29), as written: once `find_repo` has found a repository, every call raises AttributeError |
| Command.ReconstructIsUndefined | src/datagit/storage/core.py:1-94 | `core.reconstruct_working_directory` raises AttributeError |
| Command.AfterLookup | src/datagit/cli/activate.py:55-76 | each missing link exits 1 with its own reason. Only a found directory recipe reaches reconstruction. The command succeeds exactly when reconstruction of that recipe succeeds |
| Command.NoSuccessWithShownCore | src/datagit/cli/activate.py:70-76 | with the `core.py` shown, no commit lookup ever ends a command normally |
| Activate.ActivationTarget | src/datagit/cli/activate.py:36-49 | an existing view gives a symbolic HEAD and the view's stripped text. Anything else gives a detached HEAD holding the argument. A view path naming a directory raises IsADirectoryError |
| Activate.ActivateCommand | src/datagit/cli/activate.py:20-79 | a non-empty index exits 1 before HEAD changes. Otherwise HEAD is rewritten first, so it stays rewritten when a later lookup fails. An empty commit ends normally. Any other commit ends as its lookup and reconstruction decide. Only HEAD changes |
| Activate.ActivatedViewIsHead | src/datagit/cli/activate.py:36-44 | after activating a view, HEAD resolves to the commit that was activated, or to None for an empty view |
| Activate.ActivatedCommitIsHead | src/datagit/cli/activate.py:45-49 | after activating a commit hash that is not a view, HEAD is detached and resolves to that hash |
| Checkout.LoadMetadata | src/datagit/storage/metadata.py:5-9 | the stored metadata, or `{"HEAD": null, "branch": "main", "commits": []}` when the file is missing |
| Checkout.CheckedOutMetadata | src/datagit/cli/checkout.py:63-65 | `HEAD` holds the checked-out commit and every other key keeps its value |
| Checkout.CheckoutCommand | src/datagit/cli/checkout.py:22-68 | a non-empty index exits 1. Otherwise it ends as the lookup and reconstruction decide. `metadata.json` changes only on success, and HEAD and the views never change |
| Checkout.CheckoutOfStoredCommit | src/datagit/cli/checkout.py:38-65 | checking out a stored commit whose directory recipe exists succeeds exactly when reconstruction does |
| View.ListingIsUndefined | src/datagit/cli/view.py:30-32 | the listing branch looks up `repository.get_current_branch_name`, which raises AttributeError; `get_current_view_name` is what exists |
| View.StartPoint | src/datagit/cli/view.py:46-49 | a non-empty `-c` value is the start point. Otherwise the start point is what HEAD resolves to |
| View.ViewCommand | src/datagit/cli/view.py:21-60 | an existing view exits 1. So does a missing start point. An error reading HEAD propagates. The write raises FileNotFoundError when `refs/heads` is missing or the name contains a `/`. Otherwise `refs/heads/<name>` is created holding the start point and nothing else changes. Without a name the command raises AttributeError |
| View.ViewInFreshRepository | src/datagit/cli/view.py:56 | in a repository as `init` leaves it, `refs/heads` is missing, so `view_command("feature", "abc")` raises FileNotFoundError; nothing in the shown code creates `refs/heads` |
| View.CreatedViewReadsBack | src/datagit/cli/view.py:56 | a created view reads back as its start point, and the other views are unchanged. Once activated, HEAD resolves to that start point |
| Disk.ObjectStore.Init | src/datagit/cli/init.py:24-26 | `init` creates the three empty namespaces |
| Disk.Repo.Init | src/datagit/cli/init.py:24-36 | `init` creates the three empty namespaces, `metadata.json` holding `{"HEAD": null, "branch": "main"}` and an empty `index.json`; it creates neither HEAD nor `refs/heads` |
| Disk.ViewFile | src/datagit/storage/repository.py:86 | `refs/heads/<name>` is a directory for `""`, `.` and `..`, is missing when `refs/heads` is, and is otherwise the view's file if it exists |
| Disk.DigestIsPlainFileName | src/datagit/storage/core.py:17-19 | a 64-character hex digest is a plain file name |
| Builtins.Strip | src/datagit/storage/repository.py:45 | `str.strip()`: the result has no surrounding white space and is no longer than the input; stripping a stripped string changes nothing (`StripTrimmed`) |
| Builtins.AfterLast | src/datagit/storage/repository.py:49 | `split("/")[-1]`: the suffix after the last separator, containing no separator |
| Builtins.AfterFirst | src/datagit/storage/repository.py:66 | `split(" ", 1)[1]`: the suffix after the first separator |
| Builtins.RStripChar | src/datagit/storage/repository.py:15 | `rstrip('s')`: a prefix of the input that does not end in `s` |

## Left out

- Console output (`rich`), `typer` argument plumbing and exit codes other than the status-1 exit are not modelled. A command's printed message becomes its `Reason`.
- `find_repo` is not modelled. Every model acts on the repository it is given. Outside a repository, the commands exit 1 before any modelled statement.
- The `datagit` entry point in `cli/main.py` registers only `init`. `activate`, `checkout` and `view` are therefore unreachable through it. The model treats their command functions as called directly.
- The other commands (`add`, `status`, `commit`, `log`) and the index I/O of `storage/file.py` are not part of this model. Only the state they leave behind is. The state `init` leaves behind is modelled by `Disk.Repo.Init`, while its console output and its check for an existing `.datagit` are not.
- The three object namespaces `chunks`, `recipes` and `manifests` are assumed to exist, as `init` creates them (`Disk.ObjectStore.Valid`, which `Disk.Repo.Valid` includes). `find_repo` accepts any `.datagit` directory, and the model does not capture what happens when one is missing. `activate` and `checkout` would then get None from `get_manifest` and exit 1 with "commit not found". `construct_merkle_tree_for_file` would save the first column's chunks and then raise FileNotFoundError when it saves that column's recipe, leaving a partial write. `Core.SaveObject` and `Repository.GetRecipe`/`GetManifest` on their own do handle a missing namespace.
- View listing (`datagit view` with no name) prints to the console. It calls `repository.get_current_branch_name`, which `storage/repository.py` does not define, so the model keeps only its AttributeError.
- What reconstruction does to the working directory is not part of this model. Only whether it succeeds is, through `reconstruct` (`core.reconstruct_working_directory` does not exist in `storage/core.py`).
- Floating-point JSON numbers are left out. A malformed `index.json` or `metadata.json` is treated as well-formed, because their parse errors are not modelled.
- Path normalisation is not modelled: `..` traversal, absolute ref paths, a trailing `/`, names containing `/`, and ref paths other than `refs/heads/<name>`.
- Repository.HeadCommit: a symbolic HEAD naming any path other than `refs/heads` or a file directly inside it reads as missing.
- Core.SaveObject: an `obj_type` naming something other than an object namespace is outside the model.
- Crash atomicity, interleaved processes and the order in which files are written are not modelled.
- Text decoding is not modelled. HEAD and the view files are strings here, but the source reads and writes them with `read_text()` and `write_text()`. Those use the locale encoding and translate newlines, and undecodable bytes raise UnicodeDecodeError.
- Python strings with embedded NUL characters (which `pathlib` rejects) are not modelled.
- Core.Codec: no property of SHA-256, Arrow IPC or `json.dumps` is assumed. In particular, hash injectivity is not assumed, and neither is an encoding of the recipe bytes.

## Findings

| source | as written | input that shows it | evidently intended | confidence | as-written member | corrected member |
|---|---|---|---|---|---|---|
| src/datagit/cli/activate.py:27 | calls `metadata.load_index()`, which `storage/metadata.py` does not define, as the first statement after the repository check | a call of `activate_command("main")` once `find_repo` has found a repository | read the index with `file.load_index()` (`index.json`) and refuse only when it is non-empty | not executed | Command.LoadIndexAsWritten | Activate.ActivateCommand |
| src/datagit/cli/checkout.py:29 | calls `metadata.load_index()`, which does not exist, as the first statement after the repository check | a call of `checkout_command(h)` once `find_repo` has found a repository | read the index from `index.json` | not executed | Command.LoadIndexAsWritten | Checkout.CheckoutCommand |
| src/datagit/cli/checkout.py:57 | calls `core.reconstruct_working_directory`, which `storage/core.py` does not define. The `try` turns the AttributeError into "reconstruction failed", so no checkout or activation of a stored commit ever succeeds | a commit whose manifest and directory recipe are both stored | reconstruct the working directory from the directory recipe and succeed when that succeeds | not executed | Command.NoSuccessWithShownCore | Checkout.CheckoutOfStoredCommit |
