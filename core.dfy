/** The content-addressed object store and the Merkle recipe tree of one
    tabular file (`storage/core.py`): `save_object`, the 10,000-row column
    chunking and `construct_merkle_tree_for_file`. */
module Core {
  import opened Builtins
  import opened JsonValue
  import opened Disk

  /** Rows per chunk (`CHUNK_ROW_SIZE`). */
  const ChunkRowSize: nat := 10000

  /** One column of a polars DataFrame: its name, its data type and its cells. */
  datatype Column<V> = Column(name: string, dtype: string, cells: seq<V>)

  datatype Frame<V> = Frame(height: nat, columns: seq<Column<V>>)

  /** What polars guarantees of every DataFrame: each column holds `height`
      cells and no two columns share a name. */
  predicate Rectangular<V>(f: Frame<V>) {
    && (forall j :: 0 <= j < |f.columns| ==> |f.columns[j].cells| == f.height)
    && (forall j, k :: 0 <= j < k < |f.columns| ==> f.columns[j].name != f.columns[k].name)
  }

  /** A parsed table; `columns` is in `df.columns` order. */
  type Table<V> = f: Frame<V> | Rectangular(f) witness Frame(0, [])

  /** The foreign functions the construction calls: the SHA-256 hex digest,
      the Arrow IPC serialisation of a one-column chunk (`serialize_chunk`) and
      `json.dumps(..., sort_keys=True).encode()`. They are deterministic
      because they are functions; none is assumed injective. */
  datatype Codec<!V> = Codec(
    hash: Bytes -> Digest,
    serialize: Column<V> -> Bytes,
    dumps: Json -> Bytes)

  // ---------------------------------------------------------------------------
  // The object store

  /** The namespace after saving `contents` one after another. */
  function PutAll(store: map<string, Bytes>, contents: seq<Bytes>, hash: Bytes -> Digest): map<string, Bytes>
    decreases |contents|
  {
    if contents == [] then store else PutAll(Put(store, contents[0], hash), contents[1..], hash)
  }

  /** Every file of the namespace is named by the hash of its bytes. */
  ghost predicate ContentAddressed(store: map<string, Bytes>, hash: Bytes -> Digest) {
    forall k :: k in store ==> hash(store[k]) == k
  }

  /** One save: the content's hash is present afterwards, it holds `content`
      unless it was there already, and every existing file keeps its bytes. */
  lemma PutSpec(store: map<string, Bytes>, content: Bytes, hash: Bytes -> Digest)
    ensures Put(store, content, hash).Keys == store.Keys + {hash(content)}
    ensures forall k :: k in store ==> Put(store, content, hash)[k] == store[k]
    ensures hash(content) !in store ==> Put(store, content, hash)[hash(content)] == content
    ensures Put(Put(store, content, hash), content, hash) == Put(store, content, hash)
  {
  }

  /** Saving `a` and then `b` is saving `a + b`. */
  lemma {:induction false} PutAllAppend(store: map<string, Bytes>, a: seq<Bytes>, b: seq<Bytes>, hash: Bytes -> Digest)
    ensures PutAll(store, a + b, hash) == PutAll(PutAll(store, a, hash), b, hash)
    decreases |a|
  {
    if a == [] {
      assert a + b == b;
    } else {
      assert (a + b)[0] == a[0];
      assert (a + b)[1..] == a[1..] + b;
      PutAllAppend(Put(store, a[0], hash), a[1..], b, hash);
    }
  }

  /** After saving `contents`: every content's hash is present, the files that
      existed keep their bytes, and no name appears that is not the hash of a
      saved content. */
  lemma {:induction false} PutAllSpec(store: map<string, Bytes>, contents: seq<Bytes>, hash: Bytes -> Digest)
    ensures forall c :: c in contents ==> hash(c) in PutAll(store, contents, hash)
    ensures forall k :: k in store ==> k in PutAll(store, contents, hash) && PutAll(store, contents, hash)[k] == store[k]
    ensures forall k :: k in PutAll(store, contents, hash) ==> k in store || exists c :: c in contents && hash(c) == k
    decreases |contents|
  {
    if contents != [] {
      var next := Put(store, contents[0], hash);
      PutAllSpec(next, contents[1..], hash);
      assert forall c :: c in contents ==> c == contents[0] || c in contents[1..];
      forall k | k in PutAll(store, contents, hash)
        ensures k in store || exists c :: c in contents && hash(c) == k
      {
        if k !in store {
          if k == hash(contents[0]) {
            assert contents[0] in contents;
          } else {
            assert k !in next;
            var c :| c in contents[1..] && hash(c) == k;
            assert c in contents;
          }
        }
      }
    }
  }

  /** Saving contents whose hashes are all present changes nothing. */
  lemma {:induction false} PutAllPresent(store: map<string, Bytes>, contents: seq<Bytes>, hash: Bytes -> Digest)
    requires forall c :: c in contents ==> hash(c) in store
    ensures PutAll(store, contents, hash) == store
    decreases |contents|
  {
    if contents != [] {
      assert contents[0] in contents;
      assert forall c :: c in contents[1..] ==> c in contents;
      PutAllPresent(store, contents[1..], hash);
    }
  }

  /** Deduplication: saving the same contents twice leaves the namespace as
      saving them once does. */
  lemma {:induction false} PutAllIdempotent(store: map<string, Bytes>, contents: seq<Bytes>, hash: Bytes -> Digest)
    ensures PutAll(PutAll(store, contents, hash), contents, hash) == PutAll(store, contents, hash)
  {
    PutAllSpec(store, contents, hash);
    PutAllPresent(PutAll(store, contents, hash), contents, hash);
  }

  /** A namespace whose files are named by their hashes stays so. */
  lemma {:induction false} PutAllContentAddressed(store: map<string, Bytes>, contents: seq<Bytes>, hash: Bytes -> Digest)
    requires ContentAddressed(store, hash)
    ensures ContentAddressed(PutAll(store, contents, hash), hash)
    decreases |contents|
  {
    if contents != [] {
      PutAllContentAddressed(Put(store, contents[0], hash), contents[1..], hash);
    }
  }

  /** `save_object(repo_path, content, obj_type)`: the object is written to
      `obj_type/<hash>` only if that file is absent, and the hash is returned
      either way. Writing into a missing directory raises. */
  method SaveObject(store: ObjectStore, content: Bytes, objType: string, hash: Bytes -> Digest) returns (r: Py<Digest>)
    modifies store
    ensures objType in old(store.dirs) ==>
      && r == Return(hash(content))
      && store.dirs == old(store.dirs)[objType := Put(old(store.dirs)[objType], content, hash)]
    ensures objType !in old(store.dirs) ==>
      r == Raise(FileNotFoundError) && store.dirs == old(store.dirs)
  {
    var contentHash := hash(content);
    if objType !in store.dirs {
      return Raise(FileNotFoundError);
    }
    if contentHash !in store.dirs[objType] {
      store.dirs := store.dirs[objType := store.dirs[objType][contentHash := content]];
    }
    return Return(contentHash);
  }

  // ---------------------------------------------------------------------------
  // Chunking one column

  function Min(a: int, b: int): int {
    if a <= b then a else b
  }

  /** The slices `column.slice(i, ChunkRowSize)` for `i` in
      `range(start, |cells|, ChunkRowSize)`. */
  function ChunksFrom<V>(cells: seq<V>, start: nat): seq<seq<V>>
    decreases |cells| - start
  {
    if start >= |cells| then []
    else [cells[start..Min(start + ChunkRowSize, |cells|)]] + ChunksFrom(cells, start + ChunkRowSize)
  }

  /** The chunks of a column, in row order. */
  function Chunks<V>(cells: seq<V>): seq<seq<V>> {
    ChunksFrom(cells, 0)
  }

  function Flatten<V>(chunks: seq<seq<V>>): seq<V> {
    if chunks == [] then [] else chunks[0] + Flatten(chunks[1..])
  }

  lemma {:induction false} ChunksFromCount<V>(cells: seq<V>, start: nat)
    ensures |ChunksFrom(cells, start)| ==
      if start >= |cells| then 0 else (|cells| - start + ChunkRowSize - 1) / ChunkRowSize
    decreases |cells| - start
  {
    if start < |cells| {
      ChunksFromCount(cells, start + ChunkRowSize);
      var x := |cells| - start;
      if start + ChunkRowSize >= |cells| {
        assert 0 < x <= ChunkRowSize;
        assert (x + ChunkRowSize - 1) / ChunkRowSize == 1;
      } else {
        assert (x - ChunkRowSize + ChunkRowSize - 1) / ChunkRowSize + 1 == (x + ChunkRowSize - 1) / ChunkRowSize;
      }
    }
  }

  lemma {:induction false} ChunkAt<V>(cells: seq<V>, start: nat, k: nat)
    requires k < |ChunksFrom(cells, start)|
    ensures start + k * ChunkRowSize < |cells|
    ensures ChunksFrom(cells, start)[k]
         == cells[start + k * ChunkRowSize..Min(start + (k + 1) * ChunkRowSize, |cells|)]
    decreases k
  {
    if k > 0 {
      ChunkAt(cells, start + ChunkRowSize, k - 1);
      assert start + ChunkRowSize + (k - 1) * ChunkRowSize == start + k * ChunkRowSize;
    }
  }

  /** A column of h rows is cut into ceil(h / 10000) chunks; chunk k holds
      rows [10000 k, min(10000 (k + 1), h)), so every chunk is non-empty, none
      exceeds 10000 rows and all but the last hold exactly 10000. */
  lemma {:induction false} ChunkShape<V>(cells: seq<V>)
    ensures |Chunks(cells)| == (|cells| + ChunkRowSize - 1) / ChunkRowSize
    ensures forall k :: 0 <= k < |Chunks(cells)| ==>
      Chunks(cells)[k] == cells[k * ChunkRowSize..Min((k + 1) * ChunkRowSize, |cells|)]
    ensures forall k :: 0 <= k < |Chunks(cells)| ==>
      && 0 < |Chunks(cells)[k]| <= ChunkRowSize
      && (k < |Chunks(cells)| - 1 ==> |Chunks(cells)[k]| == ChunkRowSize)
  {
    ChunksFromCount(cells, 0);
    var n := |Chunks(cells)|;
    forall k | 0 <= k < n
      ensures Chunks(cells)[k] == cells[k * ChunkRowSize..Min((k + 1) * ChunkRowSize, |cells|)]
      ensures 0 < |Chunks(cells)[k]| <= ChunkRowSize
      ensures k < n - 1 ==> |Chunks(cells)[k]| == ChunkRowSize
    {
      ChunkAt(cells, 0, k);
      if k < n - 1 {
        ChunkAt(cells, 0, k + 1);
      }
    }
  }

  /** Concatenating the chunks in order gives back the column. */
  lemma {:induction false} ChunksConcat<V>(cells: seq<V>, start: nat)
    requires start <= |cells|
    ensures Flatten(ChunksFrom(cells, start)) == cells[start..]
    decreases |cells| - start
  {
    if start < |cells| {
      var end := Min(start + ChunkRowSize, |cells|);
      var chunks := ChunksFrom(cells, start);
      assert chunks[0] == cells[start..end];
      assert chunks[1..] == ChunksFrom(cells, start + ChunkRowSize);
      if start + ChunkRowSize < |cells| {
        ChunksConcat(cells, start + ChunkRowSize);
        assert cells[start..] == cells[start..end] + cells[end..];
      } else {
        assert ChunksFrom(cells, start + ChunkRowSize) == [];
        assert Flatten(chunks[1..]) == [];
      }
    }
  }

  /** A table of height 0 yields no chunks at all. */
  lemma EmptyColumnHasNoChunks<V>(cells: seq<V>)
    requires |cells| == 0
    ensures Chunks(cells) == []
  {
  }

  // ---------------------------------------------------------------------------
  // The recipe tree

  /** `serialize_chunk` applied to each chunk of a column. */
  function SerializeAll<V>(name: string, dtype: string, chunks: seq<seq<V>>, serialize: Column<V> -> Bytes): (r: seq<Bytes>)
    ensures |r| == |chunks|
    ensures forall k :: 0 <= k < |r| ==> r[k] == serialize(Column(name, dtype, chunks[k]))
  {
    if chunks == [] then []
    else [serialize(Column(name, dtype, chunks[0]))] + SerializeAll(name, dtype, chunks[1..], serialize)
  }

  function HashAll(contents: seq<Bytes>, hash: Bytes -> Digest): (r: seq<Digest>)
    ensures |r| == |contents|
    ensures forall k :: 0 <= k < |r| ==> r[k] == hash(contents[k])
  {
    if contents == [] then [] else [hash(contents[0])] + HashAll(contents[1..], hash)
  }

  function StrAll(names: seq<string>): (r: seq<Json>)
    ensures |r| == |names|
    ensures forall k :: 0 <= k < |r| ==> r[k] == Str(names[k])
  {
    if names == [] then [] else [Str(names[0])] + StrAll(names[1..])
  }

  /** The serialised chunks of `c` from row `start` on. */
  function ChunkContentsFrom<V>(c: Column<V>, start: nat, codec: Codec<V>): seq<Bytes> {
    SerializeAll(c.name, c.dtype, ChunksFrom(c.cells, start), codec.serialize)
  }

  /** The bytes saved in `chunks` for column `c`, in row order. */
  function ChunkContents<V>(c: Column<V>, codec: Codec<V>): seq<Bytes> {
    ChunkContentsFrom(c, 0, codec)
  }

  /** `column_chunk_hashes`. */
  function ChunkHashes<V>(c: Column<V>, codec: Codec<V>): seq<Digest> {
    HashAll(ChunkContents(c, codec), codec.hash)
  }

  /** `{"chunks": [...]}`. */
  function ColumnRecipe(hashes: seq<Digest>): Json {
    Obj(map["chunks" := Arr(StrAll(hashes))])
  }

  function ColumnRecipeContent<V>(c: Column<V>, codec: Codec<V>): Bytes {
    codec.dumps(ColumnRecipe(ChunkHashes(c, codec)))
  }

  function ColumnRecipeHash<V>(c: Column<V>, codec: Codec<V>): Digest {
    codec.hash(ColumnRecipeContent(c, codec))
  }

  /** `{"name": ..., "recipe": ...}`. */
  function ColumnEntry<V>(c: Column<V>, codec: Codec<V>): Json {
    Obj(map["name" := Str(c.name), "recipe" := Str(ColumnRecipeHash(c, codec))])
  }

  /** `column_recipes`: one entry per column, in column order. */
  function ColumnEntries<V>(columns: seq<Column<V>>, codec: Codec<V>): seq<Json>
  {
    if columns == [] then [] else [ColumnEntry(columns[0], codec)] + ColumnEntries(columns[1..], codec)
  }

  /** There is one entry per column, and entry j describes column j. */
  lemma {:induction false} ColumnEntriesInOrder<V>(columns: seq<Column<V>>, codec: Codec<V>)
    ensures |ColumnEntries(columns, codec)| == |columns|
    ensures forall j :: 0 <= j < |columns| ==> ColumnEntries(columns, codec)[j] == ColumnEntry(columns[j], codec)
  {
    if columns != [] {
      ColumnEntriesInOrder(columns[1..], codec);
    }
  }

  /** `{"type": "columnar", "columns": column_recipes}`. */
  function FileRecipe<V>(t: Table<V>, codec: Codec<V>): Json {
    Obj(map["type" := Str("columnar"), "columns" := Arr(ColumnEntries(t.columns, codec))])
  }

  function FileRecipeContent<V>(t: Table<V>, codec: Codec<V>): Bytes {
    codec.dumps(FileRecipe(t, codec))
  }

  /** The file's fingerprint, which `construct_merkle_tree_for_file` returns. */
  function FileRecipeHash<V>(t: Table<V>, codec: Codec<V>): Digest {
    codec.hash(FileRecipeContent(t, codec))
  }

  /** All chunk bytes saved for `columns`, column after column. */
  function AllChunkContents<V>(columns: seq<Column<V>>, codec: Codec<V>): seq<Bytes> {
    if columns == [] then [] else ChunkContents(columns[0], codec) + AllChunkContents(columns[1..], codec)
  }

  /** The column recipes saved for `columns`, in column order. */
  function ColumnRecipeContents<V>(columns: seq<Column<V>>, codec: Codec<V>): (r: seq<Bytes>)
    ensures |r| == |columns|
    ensures forall j :: 0 <= j < |r| ==> r[j] == ColumnRecipeContent(columns[j], codec)
  {
    if columns == [] then [] else [ColumnRecipeContent(columns[0], codec)] + ColumnRecipeContents(columns[1..], codec)
  }

  /** Everything saved in `recipes`: the column recipes, then the file recipe. */
  function RecipeContents<V>(t: Table<V>, codec: Codec<V>): seq<Bytes> {
    ColumnRecipeContents(t.columns, codec) + [FileRecipeContent(t, codec)]
  }

  /** A column's recipe lists one hash per chunk, in row order: entry k is the
      hash of the serialised rows [10000 k, min(10000 (k + 1), h)). */
  lemma {:induction false} ColumnRecipeListsChunks<V>(c: Column<V>, codec: Codec<V>)
    ensures var hashes := ChunkHashes(c, codec);
      && |hashes| == (|c.cells| + ChunkRowSize - 1) / ChunkRowSize
      && ColumnRecipe(hashes).fields["chunks"] == Arr(StrAll(hashes))
      && forall k :: 0 <= k < |hashes| ==>
           hashes[k] == codec.hash(codec.serialize(Column(c.name, c.dtype,
             c.cells[k * ChunkRowSize..Min((k + 1) * ChunkRowSize, |c.cells|)])))
  {
    ChunkShape(c.cells);
  }

  lemma {:induction false} ChunkContentsInAll<V>(columns: seq<Column<V>>, j: nat, codec: Codec<V>)
    requires j < |columns|
    ensures forall b :: b in ChunkContents(columns[j], codec) ==> b in AllChunkContents(columns, codec)
    decreases j
  {
    if j > 0 {
      ChunkContentsInAll(columns[1..], j - 1, codec);
      assert columns[1..][j - 1] == columns[j];
    }
  }

  /** After a construction, the whole tree is in the store: every chunk a
      column recipe lists is in `chunks`, every column recipe and the file
      recipe are in `recipes`, and files that existed keep their bytes. */
  lemma {:induction false} TreeIsStored<V>(chunks: map<string, Bytes>, recipes: map<string, Bytes>, t: Table<V>, codec: Codec<V>)
    ensures var chunks' := PutAll(chunks, AllChunkContents(t.columns, codec), codec.hash);
      && (forall j, k :: 0 <= j < |t.columns| && 0 <= k < |ChunkHashes(t.columns[j], codec)| ==>
            ChunkHashes(t.columns[j], codec)[k] in chunks')
      && (forall h :: h in chunks ==> h in chunks' && chunks'[h] == chunks[h])
    ensures var recipes' := PutAll(recipes, RecipeContents(t, codec), codec.hash);
      && FileRecipeHash(t, codec) in recipes'
      && (forall j :: 0 <= j < |t.columns| ==> ColumnRecipeHash(t.columns[j], codec) in recipes')
      && (forall h :: h in recipes ==> h in recipes' && recipes'[h] == recipes[h])
  {
    var all := AllChunkContents(t.columns, codec);
    PutAllSpec(chunks, all, codec.hash);
    forall j, k | 0 <= j < |t.columns| && 0 <= k < |ChunkHashes(t.columns[j], codec)|
      ensures ChunkHashes(t.columns[j], codec)[k] in PutAll(chunks, all, codec.hash)
    {
      ChunkContentsInAll(t.columns, j, codec);
      assert ChunkContents(t.columns[j], codec)[k] in all;
    }
    var rs := RecipeContents(t, codec);
    PutAllSpec(recipes, rs, codec.hash);
    assert rs[|rs| - 1] == FileRecipeContent(t, codec);
    forall j | 0 <= j < |t.columns|
      ensures ColumnRecipeHash(t.columns[j], codec) in PutAll(recipes, rs, codec.hash)
    {
      assert rs[j] == ColumnRecipeContent(t.columns[j], codec);
    }
  }

  /** Saving the chunk at row `i` and then the chunks after it is saving the
      chunks from row `i` on. */
  lemma {:induction false} ChunkStep<V>(column: Column<V>, i: nat, chunks: map<string, Bytes>,
                                       hashes: seq<Digest>, codec: Codec<V>)
    requires i < |column.cells|
    ensures var chunkBytes := codec.serialize(Column(column.name, column.dtype, column.cells[i..Min(i + ChunkRowSize, |column.cells|)]));
      && PutAll(Put(chunks, chunkBytes, codec.hash), ChunkContentsFrom(column, i + ChunkRowSize, codec), codec.hash)
         == PutAll(chunks, ChunkContentsFrom(column, i, codec), codec.hash)
      && (hashes + [codec.hash(chunkBytes)]) + HashAll(ChunkContentsFrom(column, i + ChunkRowSize, codec), codec.hash)
         == hashes + HashAll(ChunkContentsFrom(column, i, codec), codec.hash)
  {
    var chunkBytes := codec.serialize(Column(column.name, column.dtype, column.cells[i..Min(i + ChunkRowSize, |column.cells|)]));
    var rest := ChunkContentsFrom(column, i + ChunkRowSize, codec);
    assert ChunkContentsFrom(column, i, codec) == [chunkBytes] + rest;
  }

  lemma UpdateTwice<K, W>(m: map<K, W>, k: K, a: W, b: W)
    ensures m[k := a][k := b] == m[k := b]
  {
  }

  /** The inner loop of `construct_merkle_tree_for_file` for one column:
      for `i` in `range(0, height, ChunkRowSize)`, serialise rows
      [i, i + ChunkRowSize) of the column, save them in `chunks` and append
      the hash to `column_chunk_hashes`. */
  method SaveColumnChunks<V>(store: ObjectStore, column: Column<V>, height: nat, codec: Codec<V>)
    returns (columnChunkHashes: seq<Digest>)
    requires store.Valid()
    requires |column.cells| == height
    modifies store
    ensures store.Valid()
    ensures columnChunkHashes == ChunkHashes(column, codec)
    ensures store.dirs == old(store.dirs)["chunks" := PutAll(old(store.dirs)["chunks"], ChunkContents(column, codec), codec.hash)]
  {
    ghost var chunks0 := store.dirs["chunks"];
    columnChunkHashes := [];
    var i := 0;
    while i < height
      invariant store.Valid()
      invariant store.dirs == old(store.dirs)["chunks" := store.dirs["chunks"]]
      invariant PutAll(store.dirs["chunks"], ChunkContentsFrom(column, i, codec), codec.hash)
             == PutAll(chunks0, ChunkContents(column, codec), codec.hash)
      invariant columnChunkHashes + HashAll(ChunkContentsFrom(column, i, codec), codec.hash)
             == ChunkHashes(column, codec)
      decreases height - i
    {
      var chunk := Column(column.name, column.dtype, column.cells[i..Min(i + ChunkRowSize, height)]);
      var chunkBytes := codec.serialize(chunk);
      ChunkStep(column, i, store.dirs["chunks"], columnChunkHashes, codec);
      ghost var before := store.dirs["chunks"];
      var saved := SaveObject(store, chunkBytes, "chunks", codec.hash);
      UpdateTwice(old(store.dirs), "chunks", before, store.dirs["chunks"]);
      columnChunkHashes := columnChunkHashes + [saved.value];
      i := i + ChunkRowSize;
    }
    assert ChunkContentsFrom(column, i, codec) == [];
  }

  /** The body of the column loop of `construct_merkle_tree_for_file`: save
      the column's chunks, then its `{"chunks": [...]}` recipe, and give back
      the `{"name", "recipe"}` entry for the file recipe. */
  method SaveColumn<V>(store: ObjectStore, column: Column<V>, height: nat, codec: Codec<V>) returns (entry: Json)
    requires store.Valid()
    requires |column.cells| == height
    modifies store
    ensures store.Valid()
    ensures entry == ColumnEntry(column, codec)
    ensures store.dirs == old(store.dirs)
      ["chunks" := PutAll(old(store.dirs)["chunks"], ChunkContents(column, codec), codec.hash)]
      ["recipes" := Put(old(store.dirs)["recipes"], ColumnRecipeContent(column, codec), codec.hash)]
  {
    var columnChunkHashes := SaveColumnChunks(store, column, height, codec);
    var columnRecipeContent := codec.dumps(ColumnRecipe(columnChunkHashes));
    var columnRecipeHash := SaveObject(store, columnRecipeContent, "recipes", codec.hash);
    entry := Obj(map["name" := Str(column.name), "recipe" := Str(columnRecipeHash.value)]);
  }

  /** The chunks of the columns `a + [c]` are those of `a`, then those of `c`. */
  lemma {:induction false} AllChunkContentsSnoc<V>(a: seq<Column<V>>, c: Column<V>, codec: Codec<V>)
    ensures AllChunkContents(a + [c], codec) == AllChunkContents(a, codec) + ChunkContents(c, codec)
    decreases |a|
  {
    if a == [] {
      assert [c][1..] == [];
    } else {
      assert (a + [c])[1..] == a[1..] + [c];
      AllChunkContentsSnoc(a[1..], c, codec);
    }
  }

  /** The object directories once the columns `cols` have been saved. */
  function SavedColumns<V>(o: map<string, map<string, Bytes>>, cols: seq<Column<V>>, codec: Codec<V>): map<string, map<string, Bytes>>
    requires "chunks" in o && "recipes" in o
  {
    o["chunks" := PutAll(o["chunks"], AllChunkContents(cols, codec), codec.hash)]
     ["recipes" := PutAll(o["recipes"], ColumnRecipeContents(cols, codec), codec.hash)]
  }

  lemma {:induction false} ChunksSnoc<V>(chunks: map<string, Bytes>, a: seq<Column<V>>, c: Column<V>, codec: Codec<V>)
    ensures PutAll(PutAll(chunks, AllChunkContents(a, codec), codec.hash), ChunkContents(c, codec), codec.hash)
         == PutAll(chunks, AllChunkContents(a + [c], codec), codec.hash)
  {
    AllChunkContentsSnoc(a, c, codec);
    PutAllAppend(chunks, AllChunkContents(a, codec), ChunkContents(c, codec), codec.hash);
  }

  lemma PutAllOne(store: map<string, Bytes>, content: Bytes, hash: Bytes -> Digest)
    ensures PutAll(store, [content], hash) == Put(store, content, hash)
  {
    assert [content][1..] == [];
  }

  lemma {:induction false} ColumnRecipeContentsSnoc<V>(a: seq<Column<V>>, c: Column<V>, codec: Codec<V>)
    ensures ColumnRecipeContents(a + [c], codec) == ColumnRecipeContents(a, codec) + [ColumnRecipeContent(c, codec)]
  {
    var xs := ColumnRecipeContents(a + [c], codec);
    var ys := ColumnRecipeContents(a, codec) + [ColumnRecipeContent(c, codec)];
    forall j | 0 <= j < |xs|
      ensures xs[j] == ys[j]
    {
      if j < |a| {
        assert (a + [c])[j] == a[j];
      }
    }
  }

  lemma {:induction false} RecipesSnoc<V>(recipes: map<string, Bytes>, a: seq<Column<V>>, c: Column<V>, codec: Codec<V>)
    ensures Put(PutAll(recipes, ColumnRecipeContents(a, codec), codec.hash), ColumnRecipeContent(c, codec), codec.hash)
         == PutAll(recipes, ColumnRecipeContents(a + [c], codec), codec.hash)
  {
    ColumnRecipeContentsSnoc(a, c, codec);
    PutAllAppend(recipes, ColumnRecipeContents(a, codec), [ColumnRecipeContent(c, codec)], codec.hash);
    PutAllOne(PutAll(recipes, ColumnRecipeContents(a, codec), codec.hash), ColumnRecipeContent(c, codec), codec.hash);
  }

  lemma {:induction false} ColumnEntriesSnoc<V>(a: seq<Column<V>>, c: Column<V>, codec: Codec<V>)
    ensures ColumnEntries(a + [c], codec) == ColumnEntries(a, codec) + [ColumnEntry(c, codec)]
    decreases |a|
  {
    if a == [] {
      assert a + [c] == [c];
    } else {
      assert (a + [c])[1..] == a[1..] + [c];
      ColumnEntriesSnoc(a[1..], c, codec);
    }
  }

  /** Updating both namespaces twice is updating them once, to the second values. */
  lemma UpdateStoresTwice(o: map<string, map<string, Bytes>>, c1: map<string, Bytes>, r1: map<string, Bytes>,
                          c2: map<string, Bytes>, r2: map<string, Bytes>)
    ensures o["chunks" := c1]["recipes" := r1]["chunks" := c2]["recipes" := r2] == o["chunks" := c2]["recipes" := r2]
  {
  }

  /** Saving one more column extends `SavedColumns` and `column_recipes` by it. */
  lemma {:induction false} SaveColumnsStep<V>(o: map<string, map<string, Bytes>>, columns: seq<Column<V>>, j: nat, codec: Codec<V>)
    requires "chunks" in o && "recipes" in o
    requires j < |columns|
    ensures SavedColumns(o, columns[..j], codec)
              ["chunks" := PutAll(SavedColumns(o, columns[..j], codec)["chunks"], ChunkContents(columns[j], codec), codec.hash)]
              ["recipes" := Put(SavedColumns(o, columns[..j], codec)["recipes"], ColumnRecipeContent(columns[j], codec), codec.hash)]
         == SavedColumns(o, columns[..j + 1], codec)
    ensures ColumnEntries(columns[..j], codec) + [ColumnEntry(columns[j], codec)] == ColumnEntries(columns[..j + 1], codec)
  {
    var a, c := columns[..j], columns[j];
    assert columns[..j + 1] == a + [c];
    ChunksSnoc(o["chunks"], a, c, codec);
    RecipesSnoc(o["recipes"], a, c, codec);
    ColumnEntriesSnoc(a, c, codec);
    UpdateStoresTwice(o, PutAll(o["chunks"], AllChunkContents(a, codec), codec.hash),
      PutAll(o["recipes"], ColumnRecipeContents(a, codec), codec.hash),
      PutAll(o["chunks"], AllChunkContents(a + [c], codec), codec.hash),
      PutAll(o["recipes"], ColumnRecipeContents(a + [c], codec), codec.hash));
  }

  /** The column loop of `construct_merkle_tree_for_file`: `SaveColumn` for
      each column in order, collecting `column_recipes`. */
  method SaveColumns<V>(store: ObjectStore, columns: seq<Column<V>>, height: nat, codec: Codec<V>)
    returns (columnRecipes: seq<Json>)
    requires store.Valid()
    requires forall j :: 0 <= j < |columns| ==> |columns[j].cells| == height
    modifies store
    ensures store.Valid()
    ensures columnRecipes == ColumnEntries(columns, codec)
    ensures store.dirs == SavedColumns(old(store.dirs), columns, codec)
  {
    columnRecipes := [];
    var j := 0;
    while j < |columns|
      invariant 0 <= j <= |columns|
      invariant store.dirs == SavedColumns(old(store.dirs), columns[..j], codec)
      invariant columnRecipes == ColumnEntries(columns[..j], codec)
    {
      SaveColumnsStep(old(store.dirs), columns, j, codec);
      var entry := SaveColumn(store, columns[j], height, codec);
      columnRecipes := columnRecipes + [entry];
      j := j + 1;
    }
    assert columns[..j] == columns;
  }

  /** The object directories once the whole tree of `t` has been saved: its
      chunks in `chunks`, its column recipes and file recipe in `recipes`. */
  function TreeSaved<V>(o: map<string, map<string, Bytes>>, t: Table<V>, codec: Codec<V>): map<string, map<string, Bytes>>
    requires "chunks" in o && "recipes" in o
  {
    o["chunks" := PutAll(o["chunks"], AllChunkContents(t.columns, codec), codec.hash)]
     ["recipes" := PutAll(o["recipes"], RecipeContents(t, codec), codec.hash)]
  }

  /** Constructing the tree of the same table again saves nothing new. */
  lemma {:induction false} ConstructTwice<V>(o: map<string, map<string, Bytes>>, t: Table<V>, codec: Codec<V>)
    requires "chunks" in o && "recipes" in o
    ensures TreeSaved(TreeSaved(o, t, codec), t, codec) == TreeSaved(o, t, codec)
  {
    PutAllIdempotent(o["chunks"], AllChunkContents(t.columns, codec), codec.hash);
    PutAllIdempotent(o["recipes"], RecipeContents(t, codec), codec.hash);
    UpdateStoresTwice(o, PutAll(o["chunks"], AllChunkContents(t.columns, codec), codec.hash),
      PutAll(o["recipes"], RecipeContents(t, codec), codec.hash),
      PutAll(o["chunks"], AllChunkContents(t.columns, codec), codec.hash),
      PutAll(o["recipes"], RecipeContents(t, codec), codec.hash));
  }

  /** `construct_merkle_tree_for_file`: parse the source (a failure raises
      IOError before anything is saved), save every chunk of every column,
      then one recipe per column, then the file recipe, and return the file
      recipe's hash. `source` is what `pl.read_csv` produced, None when it
      raised. */
  method ConstructMerkleTreeForFile<V>(store: ObjectStore, source: Option<Table<V>>, codec: Codec<V>) returns (r: Py<Digest>)
    requires store.Valid()
    modifies store
    ensures store.Valid()
    ensures source.None? ==> r == Raise(IOError) && store.dirs == old(store.dirs)
    ensures source.Some? ==>
      && r == Return(FileRecipeHash(source.value, codec))
      && store.dirs == TreeSaved(old(store.dirs), source.value, codec)
  {
    if source.None? {
      return Raise(IOError);
    }
    var df := source.value;
    ghost var recipes0 := store.dirs["recipes"];
    var columnRecipes := SaveColumns(store, df.columns, df.height, codec);
    var fileRecipeContent := codec.dumps(Obj(map["type" := Str("columnar"), "columns" := Arr(columnRecipes)]));
    ghost var recipesBefore := store.dirs["recipes"];
    r := SaveObject(store, fileRecipeContent, "recipes", codec.hash);
    PutAllAppend(recipes0, ColumnRecipeContents(df.columns, codec), [fileRecipeContent], codec.hash);
    assert PutAll(recipesBefore, [fileRecipeContent], codec.hash) == Put(recipesBefore, fileRecipeContent, codec.hash);
  }
}
