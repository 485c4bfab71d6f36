/** The objects around the search memory: the collection, the two stores that write it
    and the runtime that reads it through its memory. */
module SearchRuntime {
  import opened Options
  import opened SearchCache

  /** A database collection. Ids are given on insertion and only grow. */
  class Collection<B(!new, ==)> {
    var docs: seq<Doc<B>>
    var nextId: nat

    ghost predicate Valid()
      reads this
    {
      Ordered(docs, nextId)
    }

    constructor ()
      ensures Valid() && docs == []
    {
      docs := [];
      nextId := 0;
    }

    method DeleteMany(filter: Query) returns (deleted: nat)
      requires Valid()
      modifies this
      ensures Valid() && nextId == old(nextId)
      ensures docs == Without(filter, old(docs))
      ensures deleted == |Select(filter, old(docs))|
    {
      WithoutOrdered(filter, docs, nextId);
      deleted := |Select(filter, docs)|;
      docs := Without(filter, docs);
    }

    method InsertMany(fields: seq<Fields<B>>)
      requires Valid()
      modifies this
      ensures Valid() && nextId == old(nextId) + |fields|
      ensures docs == old(docs) + Numbered(old(nextId), fields)
    {
      docs := docs + Numbered(nextId, fields);
      nextId := nextId + |fields|;
    }

    method CountDocuments(filter: Query) returns (n: nat)
      ensures n == |Select(filter, docs)|
    {
      n := |Select(filter, docs)|;
    }

    method NewestId(filter: Query) returns (id: Option<nat>)
      ensures id == MaxId(Select(filter, docs))
    {
      id := MaxId(Select(filter, docs));
    }

    method Find(filter: Query) returns (found: seq<Fields<B>>)
      ensures found == Contents(Select(filter, docs))
    {
      found := Contents(Select(filter, docs));
    }
  }

  function ByIndex(index: string): Query { Query(Some(index), None, None) }

  function ByIndexUri(index: string, uri: string): Query { Query(Some(index), None, Some(uri)) }

  function ByIndexModel(index: string, model: string): Query { Query(Some(index), Some(model), None) }

  function ByIndexModelUri(index: string, model: string, uri: string): Query {
    Query(Some(index), Some(model), Some(uri))
  }

  function Everything(): Query { Query(None, None, None) }

  // ---------------------------------------------------------------- what the filters mean

  ghost predicate Ascending<B>(docs: seq<Doc<B>>) { forall i, j :: 0 <= i < j < |docs| ==> docs[i].id < docs[j].id }

  /** Of the documents before, exactly those that are not gone are left, in order; behind them stand
      the new ones, in order, with the next ids. */
  ghost predicate Swapped<B(!new)>(before: seq<Doc<B>>, nextId: nat, gone: Fields<B> -> bool, added: seq<Fields<B>>,
                             after: seq<Doc<B>>) {
    var n := |after| - |added|;
    && n >= 0 && Ascending(after)
    && (forall d :: d in after[..n] <==> d in before && !gone(d.fields))
    && (forall k :: 0 <= k < |added| ==> after[n + k] == Doc(nextId + k, added[k]))
  }

  /** The wanted documents' fields, in collection order. */
  ghost predicate Lists<B(!new)>(docs: seq<Doc<B>>, wanted: Fields<B> -> bool, found: seq<Fields<B>>) {
    exists ds: seq<Doc<B>> :: IsSelection(docs, wanted, ds) && found == Contents(ds)
  }

  ghost predicate IsSelection<B(!new)>(docs: seq<Doc<B>>, wanted: Fields<B> -> bool, ds: seq<Doc<B>>) {
    Ascending(ds) && forall d :: d in ds <==> d in docs && wanted(d.fields)
  }

  function InIndex<B>(index: string): Fields<B> -> bool { (f: Fields<B>) => f.index == index }

  function InIndexUri<B>(index: string, uri: string): Fields<B> -> bool {
    (f: Fields<B>) => f.index == index && f.uri == uri
  }

  function InIndexModel<B>(index: string, model: string): Fields<B> -> bool {
    (f: Fields<B>) => f.index == index && f.embeddingModel == model
  }

  function InIndexModelUri<B>(index: string, model: string, uri: string): Fields<B> -> bool {
    (f: Fields<B>) => f.index == index && f.embeddingModel == model && f.uri == uri
  }

  lemma {:induction false} ReplacedSwaps<B(!new)>(q: Query, gone: Fields<B> -> bool, docs: seq<Doc<B>>, nextId: nat,
                                           added: seq<Fields<B>>)
    requires Ordered(docs, nextId) && forall f: Fields<B> :: Matches(q, f) == gone(f)
    ensures Swapped(docs, nextId, gone, added, Replaced(q, docs, nextId, added))
  {
    WithoutOrdered(q, docs, nextId);
    KeptSwaps(docs, Without(q, docs), nextId, gone, added);
  }

  lemma {:induction false} KeptSwaps<B(!new)>(docs: seq<Doc<B>>, kept: seq<Doc<B>>, nextId: nat,
                                       gone: Fields<B> -> bool, added: seq<Fields<B>>)
    requires Ordered(kept, nextId) && forall d :: d in kept <==> d in docs && !gone(d.fields)
    ensures Swapped(docs, nextId, gone, added, kept + Numbered(nextId, added))
  {
    KeptThenAdded(kept, nextId, added);
    assert (kept + Numbered(nextId, added))[..|kept|] == kept;
  }

  lemma {:induction false} KeptThenAdded<B(!new)>(kept: seq<Doc<B>>, nextId: nat, added: seq<Fields<B>>)
    requires Ordered(kept, nextId)
    ensures var after := kept + Numbered(nextId, added);
      && |after| - |added| == |kept| && after[..|kept|] == kept && Ascending(after)
      && forall k :: 0 <= k < |added| ==> after[|kept| + k] == Doc(nextId + k, added[k])
  {
    var after := kept + Numbered(nextId, added);
    forall i, j | 0 <= i < j < |after| ensures after[i].id < after[j].id {
      if i < |kept| <= j {
        assert after[i] == kept[i] && kept[i] in kept;
      }
    }
  }

  lemma {:induction false} SelectLists<B(!new)>(q: Query, wanted: Fields<B> -> bool, docs: seq<Doc<B>>, nextId: nat)
    requires Ordered(docs, nextId) && forall f: Fields<B> :: Matches(q, f) == wanted(f)
    ensures Lists(docs, wanted, Contents(Select(q, docs)))
  {
    SelectOrdered(q, docs, nextId);
    assert IsSelection(docs, wanted, Select(q, docs));
  }

  class EmbeddingStore<B(!new, ==)> {
    const db: Collection<B>

    constructor (db: Collection<B>)
      ensures this.db == db
    {
      this.db := db;
    }

    method ReplaceIndexModel(index: string, model: string, docs: seq<Fields<B>>) returns (count: nat)
      requires db.Valid()
      modifies db
      ensures db.Valid() && count == |docs| && db.nextId == old(db.nextId) + |docs|
      ensures db.docs == Replaced(ByIndexModel(index, model), old(db.docs), old(db.nextId), docs)
      ensures Swapped(old(db.docs), old(db.nextId), InIndexModel(index, model), docs, db.docs)
    {
      ReplacedSwaps(ByIndexModel(index, model), InIndexModel(index, model), db.docs, db.nextId, docs);
      var _ := db.DeleteMany(ByIndexModel(index, model));
      if docs == [] {
        return 0;
      }
      db.InsertMany(docs);
      return |docs|;
    }

    method ReplaceUri(index: string, model: string, uri: string, docs: seq<Fields<B>>) returns (count: nat)
      requires db.Valid()
      modifies db
      ensures db.Valid() && count == |docs| && db.nextId == old(db.nextId) + |docs|
      ensures db.docs == Replaced(ByIndexModelUri(index, model, uri), old(db.docs), old(db.nextId), docs)
      ensures Swapped(old(db.docs), old(db.nextId), InIndexModelUri(index, model, uri), docs, db.docs)
    {
      ReplacedSwaps(ByIndexModelUri(index, model, uri), InIndexModelUri(index, model, uri), db.docs, db.nextId, docs);
      var _ := db.DeleteMany(ByIndexModelUri(index, model, uri));
      if docs == [] {
        return 0;
      }
      db.InsertMany(docs);
      return |docs|;
    }

    method GetAll(index: string, model: string) returns (docs: seq<Fields<B>>)
      ensures docs == Contents(Select(ByIndexModel(index, model), db.docs))
      ensures db.Valid() ==> Lists(db.docs, InIndexModel(index, model), docs)
    {
      if db.Valid() {
        SelectLists(ByIndexModel(index, model), InIndexModel(index, model), db.docs, db.nextId);
      }
      docs := db.Find(ByIndexModel(index, model));
    }
  }

  /** A chunk as handed to the store: its own uri and the rest of its fields. */
  datatype Chunk<B> = Chunk(uri: string, body: B)

  function ChunkFields<B>(index: string, chunks: seq<Chunk<B>>): seq<Fields<B>> {
    seq(|chunks|, i requires 0 <= i < |chunks| => Fields(index, "", chunks[i].uri, chunks[i].body))
  }

  /** The documents end in the chunks, in order, each under the uri it carries. */
  ghost predicate HoldsChunks<B>(docs: seq<Doc<B>>, index: string, chunks: seq<Chunk<B>>) {
    |chunks| <= |docs| && forall k :: 0 <= k < |chunks| ==>
      docs[|docs| - |chunks| + k].fields == Fields(index, "", chunks[k].uri, chunks[k].body)
  }

  lemma {:induction false} ChunksAtEnd<B>(kept: seq<Doc<B>>, nextId: nat, index: string, chunks: seq<Chunk<B>>)
    ensures HoldsChunks(kept + Numbered(nextId, ChunkFields(index, chunks)), index, chunks)
  {
  }

  class ChunkStore<B(!new, ==)> {
    const db: Collection<B>

    constructor (db: Collection<B>)
      ensures this.db == db
    {
      this.db := db;
    }

    method ReplaceUri(index: string, uri: string, chunks: seq<Chunk<B>>) returns (count: nat)
      requires db.Valid()
      modifies db
      ensures db.Valid() && count == |chunks| && db.nextId == old(db.nextId) + |chunks|
      ensures db.docs == Replaced(ByIndexUri(index, uri), old(db.docs), old(db.nextId), ChunkFields(index, chunks))
      ensures Swapped(old(db.docs), old(db.nextId), InIndexUri(index, uri), ChunkFields(index, chunks), db.docs)
      ensures HoldsChunks(db.docs, index, chunks)
    {
      ReplacedSwaps(ByIndexUri(index, uri), InIndexUri(index, uri), db.docs, db.nextId, ChunkFields(index, chunks));
      ChunksAtEnd(Without(ByIndexUri(index, uri), db.docs), db.nextId, index, chunks);
      var _ := db.DeleteMany(ByIndexUri(index, uri));
      if chunks == [] {
        return 0;
      }
      db.InsertMany(ChunkFields(index, chunks));
      return |chunks|;
    }

    /** An empty index name clears every index. */
    method Clear(index: string) returns (deleted: nat)
      requires db.Valid()
      modifies db
      ensures db.Valid() && db.nextId == old(db.nextId)
      ensures var filter := if index != "" then ByIndex(index) else Everything();
              && db.docs == Replaced(filter, old(db.docs), old(db.nextId), [])
              && deleted == |Select(filter, old(db.docs))|
    {
      var filter := if index != "" then ByIndex(index) else Everything();
      deleted := db.DeleteMany(filter);
      assert db.docs == db.docs + Numbered(db.nextId, []);
    }

    method GetAll(index: string) returns (chunks: seq<Fields<B>>)
      ensures chunks == Contents(Select(ByIndex(index), db.docs))
      ensures db.Valid() ==> Lists(db.docs, InIndex(index), chunks)
    {
      if db.Valid() {
        SelectLists(ByIndex(index), InIndex(index), db.docs, db.nextId);
      }
      chunks := db.Find(ByIndex(index));
    }
  }

  /** A document is there after a replacement exactly when it was there outside what is replaced,
      or is one of the new ones. */
  lemma {:induction false} ReplacedExactly<B(!new)>(docs: seq<Doc<B>>, nextId: nat, index: string, model: string,
                                             uri: string, added: seq<Fields<B>>, d: Doc<B>)
    requires Ordered(docs, nextId)
    ensures var new' := exists k :: 0 <= k < |added| && d.id == nextId + k && d.fields == added[k];
      var f := d.fields;
      && (d in Replaced(ByIndexModel(index, model), docs, nextId, added)
          <==> (d in docs && !(f.index == index && f.embeddingModel == model)) || new')
      && (d in Replaced(ByIndexModelUri(index, model, uri), docs, nextId, added)
          <==> (d in docs && !(f.index == index && f.embeddingModel == model && f.uri == uri)) || new')
      && (d in Replaced(ByIndexUri(index, uri), docs, nextId, added)
          <==> (d in docs && !(f.index == index && f.uri == uri)) || new')
  {
    var new' := Numbered(nextId, added);
    assert d in new' <==> exists k :: 0 <= k < |added| && d.id == nextId + k && d.fields == added[k] by {
      if d in new' {
        var k :| 0 <= k < |new'| && new'[k] == d;
      }
      if k :| 0 <= k < |added| && d.id == nextId + k && d.fields == added[k] {
        assert new'[k] == d;
      }
    }
    WithoutOrdered(ByIndexModel(index, model), docs, nextId);
    WithoutOrdered(ByIndexModelUri(index, model, uri), docs, nextId);
    WithoutOrdered(ByIndexUri(index, uri), docs, nextId);
  }

  /** Clearing one index leaves the others; clearing with no name leaves nothing. */
  lemma {:induction false} ClearRemoves<B(!new)>(docs: seq<Doc<B>>, index: string)
    ensures forall d :: d in Without(ByIndex(index), docs) <==> d in docs && d.fields.index != index
    ensures Without(Everything(), docs) == []
  {
    if docs != [] {
      ClearRemoves(docs[1..], index);
    }
  }

  /** The loaded configuration with the file it came from. */
  datatype Loaded = Loaded(config: string, path: string, mtime: int)

  predicate IsCurrent(loaded: Option<Loaded>, path: string, mtime: int) {
    loaded.Some? && loaded.value.path == path && loaded.value.mtime == mtime
  }

  class Runtime<C(!new, ==), E(!new, ==)> {
    var loaded: Option<Loaded>
    var lexicalStates: Memory<C>
    var semanticStates: Memory<E>

    constructor ()
      ensures loaded == None && lexicalStates == map[] && semanticStates == map[]
    {
      loaded := None;
      lexicalStates := map[];
      semanticStates := map[];
    }

    method Reset()
      modifies this
      ensures loaded == None && lexicalStates == map[] && semanticStates == map[]
    {
      loaded := None;
      lexicalStates := map[];
      semanticStates := map[];
    }

    /** `onDisk` is what reading the file would give, `mtime` is absent when there is no file. */
    method LoadConfig(path: string, mtime: Option<int>, onDisk: string) returns (config: string)
      modifies this
      ensures mtime.None? ==> config == onDisk && unchanged(this)
      ensures mtime.Some? && IsCurrent(old(loaded), path, mtime.value) ==>
        config == old(loaded).value.config && unchanged(this)
      ensures mtime.Some? && !IsCurrent(old(loaded), path, mtime.value) ==>
        config == onDisk && loaded == Some(Loaded(onDisk, path, mtime.value))
        && lexicalStates == map[] && semanticStates == map[]
    {
      if mtime.Some? {
        if loaded.Some? && loaded.value.path == path && loaded.value.mtime == mtime.value {
          return loaded.value.config;
        }
      } else {
        return onDisk;
      }
      loaded := Some(Loaded(onDisk, path, mtime.value));
      lexicalStates := map[];
      semanticStates := map[];
      return onDisk;
    }

    method GetLexicalIndexState(db: Collection<C>, index: string) returns (state: IndexState<C>)
      requires Coherent(lexicalStates, db.docs, db.nextId)
      modifies this
      ensures state == Fresh(ByIndex(index), db.docs) && Lists(db.docs, InIndex(index), state.contents)
      ensures lexicalStates == old(lexicalStates)[ByIndex(index) := state]
      ensures Coherent(lexicalStates, db.docs, db.nextId)
      ensures semanticStates == old(semanticStates) && loaded == old(loaded)
    {
      var key := ByIndex(index);
      SelectLists(key, InIndex(index), db.docs, db.nextId);
      AnswerIsFresh(lexicalStates, key, db.docs, db.nextId);
      LookupKeepsCoherent(lexicalStates, key, db.docs, db.nextId);
      var count := db.CountDocuments(key);
      var newest := db.NewestId(key);
      var fingerprint := Fingerprint(count, newest);
      if key in lexicalStates && lexicalStates[key].fingerprint == fingerprint {
        return lexicalStates[key];
      }
      var store := new ChunkStore(db);
      var chunks := store.GetAll(index);
      state := IndexState(fingerprint, chunks);
      lexicalStates := lexicalStates[key := state];
    }

    method GetSemanticIndexState(db: Collection<E>, index: string, model: string) returns (state: IndexState<E>)
      requires Coherent(semanticStates, db.docs, db.nextId)
      modifies this
      ensures state == Fresh(ByIndexModel(index, model), db.docs)
      ensures Lists(db.docs, InIndexModel(index, model), state.contents)
      ensures semanticStates == old(semanticStates)[ByIndexModel(index, model) := state]
      ensures Coherent(semanticStates, db.docs, db.nextId)
      ensures lexicalStates == old(lexicalStates) && loaded == old(loaded)
    {
      var key := ByIndexModel(index, model);
      SelectLists(key, InIndexModel(index, model), db.docs, db.nextId);
      AnswerIsFresh(semanticStates, key, db.docs, db.nextId);
      LookupKeepsCoherent(semanticStates, key, db.docs, db.nextId);
      var count := db.CountDocuments(key);
      var newest := db.NewestId(key);
      var fingerprint := Fingerprint(count, newest);
      if key in semanticStates && semanticStates[key].fingerprint == fingerprint {
        return semanticStates[key];
      }
      var store := new EmbeddingStore(db);
      var docs := store.GetAll(index, model);
      state := IndexState(fingerprint, docs);
      semanticStates := semanticStates[key := state];
    }
  }
}
