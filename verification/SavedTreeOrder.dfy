/** What edits of the saved tree do to the order of its lists. */
module SavedTreeOrder {
  import opened Text
  import opened SavedTree
  import opened SavedTreeLaws

  /** No folder with this id lies inside another one with it. */
  predicate NotNested(fs: seq<Folder>, id: string) {
    fs == []
    || ((fs[0].id == id ==> !HasFolder(fs[0].folders, id)) && NotNested(fs[0].folders, id) && NotNested(fs[1..], id))
  }

  lemma {:induction false} UniqueNotNested(fs: seq<Folder>, parent: string, id: string)
    requires Unique(Places(fs, parent))
    ensures NotNested(fs, id)
  {
    if fs != [] {
      PartsOfTree(fs, parent);
      var own, below, rest := Own(fs[0], parent), Places(fs[0].folders, fs[0].id), Places(fs[1..], parent);
      hide Own, Places, Unique, HasFolder;
      SubKeeps(below, own + below + rest);
      SubKeeps(rest, own + below + rest);
      UniqueNotNested(fs[0].folders, fs[0].id, id);
      UniqueNotNested(fs[1..], parent, id);
      if fs[0].id == id && HasFolder(fs[0].folders, id) {
        HasFolderPlace(fs[0].folders, fs[0].id, id);
        var a :| a in below && a.item.AFolder? && a.item.id == id;
        OwnFirst(fs[0], parent);
        SubKeeps(own + below, own + below + rest);
        Apart(own, below, Place(parent, AFolder(fs[0].id, fs[0].name)), a);
        assert false;
      }
    }
  }

  lemma {:induction false} PartsOfTree(fs: seq<Folder>, parent: string)
    requires fs != []
    ensures Places(fs, parent) == Own(fs[0], parent) + Places(fs[0].folders, fs[0].id) + Places(fs[1..], parent)
  {
  }

  lemma {:induction false} OwnFirst(f: Folder, parent: string)
    ensures Place(parent, AFolder(f.id, f.name)) in Own(f, parent)
  {
  }

  // ---------------------------------------------------------------- queries

  /** `now` holds the queries of `was` without those with the id, in their order, and then `tail`. */
  predicate QueriesThen(was: seq<Query>, now: seq<Query>, id: string, tail: seq<Query>) {
    if was == [] then now == tail
    else if was[0].id == id then QueriesThen(was[1..], now, id, tail)
    else now != [] && now[0] == was[0] && QueriesThen(was[1..], now[1..], id, tail)
  }

  /** The same folders in the same order; the query with the id has left its list and stands last in that of `target`. */
  predicate QueryWentTo(was: seq<Folder>, now: seq<Folder>, id: string, target: string, q: Query) {
    if was == [] then now == []
    else
      && now != [] && now[0].id == was[0].id && now[0].name == was[0].name && now[0].pipelines == was[0].pipelines
      && QueriesThen(was[0].queries, now[0].queries, id, if was[0].id == target then [q] else [])
      && QueryWentTo(was[0].folders, now[0].folders, id, target, q)
      && QueryWentTo(was[1..], now[1..], id, target, q)
  }

  lemma {:induction false} DroppedThen(was: seq<Query>, id: string, tail: seq<Query>)
    ensures QueriesThen(was, DropQuery(was, id) + tail, id, tail)
  {
    if was != [] {
      DroppedThen(was[1..], id, tail);
      var rest := DropQuery(was[1..], id);
      if was[0].id == id {
        assert DropQuery(was, id) == rest;
      } else {
        assert DropQuery(was, id) == [was[0]] + rest;
        Assoc([was[0]], rest, tail);
        assert ([was[0]] + (rest + tail))[1..] == rest + tail;
      }
    } else {
      assert [] + tail == tail;
    }
  }

  lemma {:induction false} QueryWalk(fs: seq<Folder>, id: string, target: string, q: Query)
    requires NotNested(fs, target)
    ensures QueryWentTo(fs, UpdateFolder(RemoveQuery(fs, id), target, WithQuery(q)), id, target, q)
  {
    if fs != [] {
      var f, rest := fs[0], RemoveQuery(fs, id);
      var g := f.(queries := DropQuery(f.queries, id), folders := RemoveQuery(f.folders, id));
      assert rest[0] == g && rest[1..] == RemoveQuery(fs[1..], id);
      var now := UpdateFolder(rest, target, WithQuery(q));
      assert now[1..] == UpdateFolder(RemoveQuery(fs[1..], id), target, WithQuery(q));
      QueryWalk(f.folders, id, target, q);
      QueryWalk(fs[1..], id, target, q);
      if f.id == target {
        DroppedThen(f.queries, id, [q]);
        FoldersKept(f.folders, id, target);
        UpdateMisses(RemoveQuery(f.folders, id), target, WithQuery(q));
      } else {
        DroppedThen(f.queries, id, []);
        assert DropQuery(f.queries, id) + [] == DropQuery(f.queries, id);
      }
    }
  }

  lemma {:induction false} FoldersKept(fs: seq<Folder>, id: string, x: string)
    ensures HasFolder(RemoveQuery(fs, id), x) == HasFolder(fs, x)
  {
    if fs != [] {
      FoldersKept(fs[0].folders, id, x);
      FoldersKept(fs[1..], id, x);
      assert RemoveQuery(fs, id)[1..] == RemoveQuery(fs[1..], id);
    }
  }

  /** A moved query stands behind all others of its new folder; nothing else changes its place in a list. */
  lemma {:induction false} MovedQueryIsLast(fs: seq<Folder>, id: string, target: string)
    requires Unique(Whole(fs))
    ensures LastQuery(fs, id, None).Some? ==>
      QueryWentTo(fs, MovedQuery(fs, id, target), id, target, LastQuery(fs, id, None).value)
  {
    hide Unique, Places, QueryWentTo, UpdateFolder, RemoveQuery;
    UniqueNotNested(fs, "", target);
    if LastQuery(fs, id, None).Some? {
      QueryWalk(fs, id, target, LastQuery(fs, id, None).value);
    }
  }

  // ---------------------------------------------------------------- entries

  /** `now` holds the entries of `was` that are not dropped, in their order, and then `tail`. */
  predicate EntriesThen(was: seq<Pipeline>, now: seq<Pipeline>, drop: Pipeline -> bool, tail: seq<Pipeline>) {
    if was == [] then now == tail
    else if drop(was[0]) then EntriesThen(was[1..], now, drop, tail)
    else now != [] && now[0] == was[0] && EntriesThen(was[1..], now[1..], drop, tail)
  }

  /** The same folders in the same order; the dropped entries have left their lists and `e` stands last in that of `target`. */
  predicate EntryWentTo(was: seq<Folder>, now: seq<Folder>, drop: Pipeline -> bool, target: string, e: Pipeline) {
    if was == [] then now == []
    else
      && now != [] && now[0].id == was[0].id && now[0].name == was[0].name && now[0].queries == was[0].queries
      && EntriesThen(was[0].pipelines, now[0].pipelines, drop, if was[0].id == target then [e] else [])
      && EntryWentTo(was[0].folders, now[0].folders, drop, target, e)
      && EntryWentTo(was[1..], now[1..], drop, target, e)
  }

  function ById(id: string): Pipeline -> bool {
    (p: Pipeline) => p.id == id
  }

  function ByPipeline(pipelineId: string): Pipeline -> bool {
    (p: Pipeline) => p.pipelineId == pipelineId
  }

  lemma {:induction false} EntryDropped(was: seq<Pipeline>, id: string, tail: seq<Pipeline>)
    ensures EntriesThen(was, DropPipeline(was, id) + tail, ById(id), tail)
  {
    if was != [] {
      EntryDropped(was[1..], id, tail);
      var rest := DropPipeline(was[1..], id);
      if was[0].id == id {
        assert DropPipeline(was, id) == rest;
      } else {
        assert DropPipeline(was, id) == [was[0]] + rest;
        Assoc([was[0]], rest, tail);
        assert ([was[0]] + (rest + tail))[1..] == rest + tail;
      }
    } else {
      assert [] + tail == tail;
    }
  }

  lemma {:induction false} PipelineDropped(was: seq<Pipeline>, pipelineId: string, tail: seq<Pipeline>)
    ensures EntriesThen(was, DropPipelineId(was, pipelineId) + tail, ByPipeline(pipelineId), tail)
  {
    if was != [] {
      PipelineDropped(was[1..], pipelineId, tail);
      var rest := DropPipelineId(was[1..], pipelineId);
      if was[0].pipelineId == pipelineId {
        assert DropPipelineId(was, pipelineId) == rest;
      } else {
        assert DropPipelineId(was, pipelineId) == [was[0]] + rest;
        Assoc([was[0]], rest, tail);
        assert ([was[0]] + (rest + tail))[1..] == rest + tail;
      }
    } else {
      assert [] + tail == tail;
    }
  }

  lemma {:induction false} FoldersKeptEntry(fs: seq<Folder>, id: string, x: string)
    ensures HasFolder(RemovePipeline(fs, id), x) == HasFolder(fs, x)
  {
    if fs != [] {
      FoldersKeptEntry(fs[0].folders, id, x);
      FoldersKeptEntry(fs[1..], id, x);
      assert RemovePipeline(fs, id)[1..] == RemovePipeline(fs[1..], id);
    }
  }

  lemma {:induction false} FoldersKeptPipeline(fs: seq<Folder>, pipelineId: string, x: string)
    ensures HasFolder(RemovePipelineId(fs, pipelineId), x) == HasFolder(fs, x)
  {
    if fs != [] {
      FoldersKeptPipeline(fs[0].folders, pipelineId, x);
      FoldersKeptPipeline(fs[1..], pipelineId, x);
      assert RemovePipelineId(fs, pipelineId)[1..] == RemovePipelineId(fs[1..], pipelineId);
    }
  }

  lemma {:induction false} EntryWalk(fs: seq<Folder>, id: string, target: string, e: Pipeline)
    requires NotNested(fs, target)
    ensures EntryWentTo(fs, UpdateFolder(RemovePipeline(fs, id), target, WithPipeline(e)), ById(id), target, e)
  {
    if fs != [] {
      var f, rest := fs[0], RemovePipeline(fs, id);
      var g := f.(pipelines := DropPipeline(f.pipelines, id), folders := RemovePipeline(f.folders, id));
      assert rest[0] == g && rest[1..] == RemovePipeline(fs[1..], id);
      var now := UpdateFolder(rest, target, WithPipeline(e));
      assert now[1..] == UpdateFolder(RemovePipeline(fs[1..], id), target, WithPipeline(e));
      EntryWalk(f.folders, id, target, e);
      EntryWalk(fs[1..], id, target, e);
      if f.id == target {
        EntryDropped(f.pipelines, id, [e]);
        FoldersKeptEntry(f.folders, id, target);
        UpdateMisses(RemovePipeline(f.folders, id), target, WithPipeline(e));
      } else {
        EntryDropped(f.pipelines, id, []);
        assert DropPipeline(f.pipelines, id) + [] == DropPipeline(f.pipelines, id);
      }
    }
  }

  lemma {:induction false} AddWalk(fs: seq<Folder>, pipelineId: string, target: string, e: Pipeline)
    requires NotNested(fs, target)
    ensures
      EntryWentTo(fs, UpdateFolder(RemovePipelineId(fs, pipelineId), target, WithPipeline(e)), ByPipeline(pipelineId), target, e)
  {
    if fs != [] {
      var f, rest := fs[0], RemovePipelineId(fs, pipelineId);
      var g := f.(pipelines := DropPipelineId(f.pipelines, pipelineId), folders := RemovePipelineId(f.folders, pipelineId));
      assert rest[0] == g && rest[1..] == RemovePipelineId(fs[1..], pipelineId);
      var now := UpdateFolder(rest, target, WithPipeline(e));
      assert now[1..] == UpdateFolder(RemovePipelineId(fs[1..], pipelineId), target, WithPipeline(e));
      AddWalk(f.folders, pipelineId, target, e);
      AddWalk(fs[1..], pipelineId, target, e);
      if f.id == target {
        PipelineDropped(f.pipelines, pipelineId, [e]);
        FoldersKeptPipeline(f.folders, pipelineId, target);
        UpdateMisses(RemovePipelineId(f.folders, pipelineId), target, WithPipeline(e));
      } else {
        PipelineDropped(f.pipelines, pipelineId, []);
        assert DropPipelineId(f.pipelines, pipelineId) + [] == DropPipelineId(f.pipelines, pipelineId);
      }
    }
  }

  /** A moved entry stands behind all others of its new folder; nothing else changes its place in a list. */
  lemma {:induction false} MovedEntryIsLast(fs: seq<Folder>, id: string, target: string)
    requires Unique(Whole(fs))
    ensures Pulled(fs, id) != [] ==> EntryWentTo(fs, MovedPipeline(fs, id, target), ById(id), target, Pulled(fs, id)[0])
  {
    hide Unique, Places, EntryWentTo, UpdateFolder, RemovePipeline, Pulled;
    UniqueNotNested(fs, "", target);
    if Pulled(fs, id) != [] {
      EntryWalk(fs, id, target, Pulled(fs, id)[0]);
    }
  }

  /** So does the entry of a pipeline that is added. */
  lemma {:induction false} AddedEntryIsLast(fs: seq<Folder>, folder: string, pipelineId: string, entry: string)
    requires Unique(Whole(fs))
    ensures
      EntryWentTo(fs, AddPipeline(fs, folder, pipelineId, entry), ByPipeline(pipelineId), folder, Pipeline(entry, pipelineId))
  {
    hide Unique, Places, EntryWentTo, UpdateFolder, RemovePipelineId;
    UniqueNotNested(fs, "", folder);
    AddWalk(fs, pipelineId, folder, Pipeline(entry, pipelineId));
  }

  // ---------------------------------------------------------------- folders

  /**
   * `now` holds the folders of `was` but those with the id, in their order and with their lists, and then `tail`; the
   * folder `parent` has `f` behind its other folders.
   */
  predicate FolderWentTo(was: seq<Folder>, now: seq<Folder>, id: string, parent: string, f: Folder, tail: seq<Folder>) {
    if was == [] then now == tail
    else if was[0].id == id then FolderWentTo(was[1..], now, id, parent, f, tail)
    else
      && now != [] && now[0].id == was[0].id && now[0].name == was[0].name
      && now[0].queries == was[0].queries && now[0].pipelines == was[0].pipelines
      && FolderWentTo(was[0].folders, now[0].folders, id, parent, f, if parent != "" && was[0].id == parent then [f] else [])
      && FolderWentTo(was[1..], now[1..], id, parent, f, tail)
  }

  /** Removing a folder, with a tail put behind its level. */
  lemma {:induction false} RemovedThen(fs: seq<Folder>, id: string, parent: string, f: Folder, tail: seq<Folder>)
    requires parent == "" || !HasFolder(fs, parent)
    ensures FolderWentTo(fs, RemoveFolder(fs, id) + tail, id, parent, f, tail)
  {
    if fs == [] {
      assert [] + tail == tail;
    } else {
      var rest := RemoveFolder(fs[1..], id);
      RemovedThen(fs[1..], id, parent, f, tail);
      if fs[0].id != id {
        var g := fs[0].(folders := RemoveFolder(fs[0].folders, id));
        assert RemoveFolder(fs, id) + tail == [g] + (rest + tail);
        RemovedThen(fs[0].folders, id, parent, f, []);
        assert RemoveFolder(fs[0].folders, id) + [] == RemoveFolder(fs[0].folders, id);
        assert ([g] + (rest + tail))[1..] == rest + tail;
      } else {
        assert RemoveFolder(fs, id) == rest;
      }
    }
  }

  lemma {:induction false} FolderWalk(fs: seq<Folder>, id: string, parent: string, f: Folder)
    requires parent != "" && NotNested(fs, parent)
    ensures FolderWentTo(fs, UpdateFolder(RemoveFolder(fs, id), parent, WithFolder(f)), id, parent, f, [])
  {
    if fs != [] {
      var rest := RemoveFolder(fs[1..], id);
      FolderWalk(fs[1..], id, parent, f);
      if fs[0].id != id {
        var g := fs[0].(folders := RemoveFolder(fs[0].folders, id));
        assert RemoveFolder(fs, id) == [g] + rest && ([g] + rest)[1..] == rest;
        var now := UpdateFolder([g] + rest, parent, WithFolder(f));
        assert now[1..] == UpdateFolder(rest, parent, WithFolder(f));
        if fs[0].id == parent {
          RemovedThen(fs[0].folders, id, parent, f, [f]);
        } else {
          FolderWalk(fs[0].folders, id, parent, f);
        }
      } else {
        assert RemoveFolder(fs, id) == rest;
      }
    }
  }

  /** A moved folder stands behind all others of its new level; nothing else changes its place in a list. */
  lemma {:induction false} MovedFolderIsLast(fs: seq<Folder>, id: string, parent: string) returns (f: Folder)
    requires Unique(Whole(fs)) && HasFolder(fs, id)
    ensures f.id == id && FindFolder(fs, id, None) == Some(f)
    ensures parent == "" || !FolderContains(f, parent) ==>
      FolderWentTo(fs, MovedFolder(fs, id, parent), id, parent, f, if parent == "" then [f] else [])
  {
    hide *;
    WholeIs(fs);
    var at;
    f, at := RemoveFolderPlaces(fs, "", id);
    UniqueNotNested(fs, "", parent);
    if parent == "" || !FolderContains(f, parent) {
      MovedIs(fs, id, parent, f);
      if parent == "" {
        RemovedThen(fs, id, parent, f, [f]);
      } else {
        FolderWalk(fs, id, parent, f);
      }
    }
  }

  lemma {:induction false} WholeIs(fs: seq<Folder>)
    ensures Whole(fs) == Places(fs, "")
  {
  }

  lemma {:induction false} MovedIs(fs: seq<Folder>, id: string, parent: string, f: Folder)
    requires FindFolder(fs, id, None) == Some(f) && LastFolder(fs, id, None) == Some(f)
    requires parent == "" || !FolderContains(f, parent)
    ensures
      MovedFolder(fs, id, parent)
      == if parent == "" then RemoveFolder(fs, id) + [f] else UpdateFolder(RemoveFolder(fs, id), parent, WithFolder(f))
  {
    hide FindFolder, LastFolder, FolderContains, RemoveFolder, UpdateFolder, WithFolder;
  }

  // ---------------------------------------------------------------- edits in place

  /** The same lists, in which the query with the id is replaced where it stands. */
  predicate EditedInPlace(was: seq<Folder>, now: seq<Folder>, id: string, fn: Query -> Query) {
    if was == [] then now == []
    else
      && now != [] && now[0].id == was[0].id && now[0].name == was[0].name && now[0].pipelines == was[0].pipelines
      && |now[0].queries| == |was[0].queries|
      && (forall k :: 0 <= k < |was[0].queries| ==>
            now[0].queries[k] == if was[0].queries[k].id == id then fn(was[0].queries[k]) else was[0].queries[k])
      && EditedInPlace(was[0].folders, now[0].folders, id, fn)
      && EditedInPlace(was[1..], now[1..], id, fn)
  }

  lemma {:induction false} MapAt(qs: seq<Query>, id: string, fn: Query -> Query)
    ensures |MapQueries(qs, id, fn)| == |qs|
    ensures forall k :: 0 <= k < |qs| ==> MapQueries(qs, id, fn)[k] == if qs[k].id == id then fn(qs[k]) else qs[k]
  {
    if qs != [] {
      MapAt(qs[1..], id, fn);
    }
  }

  /** Editing a query leaves every item where it stands. */
  lemma {:induction false} EditKeepsOrder(fs: seq<Folder>, id: string, fn: Query -> Query)
    ensures EditedInPlace(fs, UpdateQuery(fs, id, fn), id, fn)
  {
    if fs != [] {
      MapAt(fs[0].queries, id, fn);
      EditKeepsOrder(fs[0].folders, id, fn);
      EditKeepsOrder(fs[1..], id, fn);
      assert UpdateQuery(fs, id, fn)[1..] == UpdateQuery(fs[1..], id, fn);
    }
  }

  /** What one folder becomes: perhaps another name, and more behind the end of its lists. */
  predicate Grown(was: Folder, now: Folder, rename: Option<string>, fs: seq<Folder>, qs: seq<Query>) {
    && now.id == was.id && now.name == (if rename.Some? then rename.value else was.name)
    && now.folders == was.folders + fs && now.queries == was.queries + qs && now.pipelines == was.pipelines
  }

  /** The same folders in the same order; those with the id have grown, and nothing else has changed. */
  predicate GrownAt(was: seq<Folder>, now: seq<Folder>, id: string, rename: Option<string>, fs: seq<Folder>, qs: seq<Query>) {
    if was == [] then now == []
    else
      && now != []
      && (if was[0].id == id then Grown(was[0], now[0], rename, fs, qs)
          else
            && Grown(was[0], now[0].(folders := was[0].folders), None, [], [])
            && GrownAt(was[0].folders, now[0].folders, id, rename, fs, qs))
      && GrownAt(was[1..], now[1..], id, rename, fs, qs)
  }

  lemma {:induction false} UpdateGrows(
    was: seq<Folder>, id: string, fn: Folder -> Folder, rename: Option<string>, fs: seq<Folder>, qs: seq<Query>)
    requires forall f :: Grown(f, fn(f), rename, fs, qs)
    ensures GrownAt(was, UpdateFolder(was, id, fn), id, rename, fs, qs)
  {
    if was != [] {
      UpdateGrows(was[0].folders, id, fn, rename, fs, qs);
      UpdateGrows(was[1..], id, fn, rename, fs, qs);
      assert UpdateFolder(was, id, fn)[1..] == UpdateFolder(was[1..], id, fn);
    }
  }

  /** Renaming a folder changes its name where it stands and nothing else. */
  lemma {:induction false} RenamedInPlace(fs: seq<Folder>, id: string, name: string)
    ensures GrownAt(fs, UpdateFolder(fs, id, WithName(name)), id, Some(name), [], [])
  {
    forall f ensures Grown(f, WithName(name)(f), Some(name), [], []) {
      assert f.folders + [] == f.folders && f.queries + [] == f.queries;
    }
    UpdateGrows(fs, id, WithName(name), Some(name), [], []);
  }

  /** A new folder, which is empty, stands behind all others of its level. */
  lemma {:induction false} NewFolderIsLast(fs: seq<Folder>, parent: string, id: string, name: string)
    ensures
      var f, now := Folder(id, name, [], [], []), AddFolder(fs, parent, EmptyFolder(id, name));
      if parent == "" then now == fs + [f] else GrownAt(fs, now, parent, None, [f], [])
  {
    var f := EmptyFolder(id, name);
    forall g ensures Grown(g, WithFolder(f)(g), None, [f], []) {
      assert g.queries + [] == g.queries;
    }
    UpdateGrows(fs, parent, WithFolder(f), None, [f], []);
    hide GrownAt;
  }

  /** A new query stands behind all others of its folder. */
  lemma {:induction false} NewQueryIsLast(fs: seq<Folder>, folder: string, q: Query)
    ensures GrownAt(fs, UpdateFolder(fs, folder, WithQuery(q)), folder, None, [], [q])
  {
    forall g ensures Grown(g, WithQuery(q)(g), None, [], [q]) {
      assert g.folders + [] == g.folders;
    }
    UpdateGrows(fs, folder, WithQuery(q), None, [], [q]);
  }
}
