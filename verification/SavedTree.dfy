/** The tree of saved queries and pipelines: folders in folders, edited without changing the old tree. */
module SavedTree {
  import opened Text

  datatype Query = Query(id: string, name: string, text: string)

  datatype Pipeline = Pipeline(id: string, pipelineId: string)

  datatype Folder = Folder(id: string, name: string, folders: seq<Folder>, queries: seq<Query>, pipelines: seq<Pipeline>)

  function EmptyFolder(id: string, name: string): Folder {
    Folder(id, name, [], [], [])
  }

  // ---------------------------------------------------------------- editing

  /** `updateFolder`: `fn` on the folders with this id, not looking inside them. */
  function UpdateFolder(fs: seq<Folder>, id: string, fn: Folder -> Folder): seq<Folder> {
    if fs == [] then []
    else
      [if fs[0].id == id then fn(fs[0]) else fs[0].(folders := UpdateFolder(fs[0].folders, id, fn))]
      + UpdateFolder(fs[1..], id, fn)
  }

  function RemoveFolder(fs: seq<Folder>, id: string): seq<Folder> {
    if fs == [] then []
    else
      (if fs[0].id == id then [] else [fs[0].(folders := RemoveFolder(fs[0].folders, id))])
      + RemoveFolder(fs[1..], id)
  }

  function WithFolder(folder: Folder): Folder -> Folder {
    (f: Folder) => f.(folders := f.folders + [folder])
  }

  function WithQuery(q: Query): Folder -> Folder {
    (f: Folder) => f.(queries := f.queries + [q])
  }

  function WithPipeline(p: Pipeline): Folder -> Folder {
    (f: Folder) => f.(pipelines := f.pipelines + [p])
  }

  function WithName(name: string): Folder -> Folder {
    (f: Folder) => f.(name := name)
  }

  /** `addFolder`; no parent, or an empty one, means the top level. */
  function AddFolder(fs: seq<Folder>, parent: string, folder: Folder): seq<Folder> {
    if parent == "" then fs + [folder] else UpdateFolder(fs, parent, WithFolder(folder))
  }

  function MapQueries(qs: seq<Query>, id: string, fn: Query -> Query): seq<Query> {
    if qs == [] then [] else [if qs[0].id == id then fn(qs[0]) else qs[0]] + MapQueries(qs[1..], id, fn)
  }

  function UpdateQuery(fs: seq<Folder>, id: string, fn: Query -> Query): seq<Folder> {
    if fs == [] then []
    else
      [fs[0].(queries := MapQueries(fs[0].queries, id, fn), folders := UpdateQuery(fs[0].folders, id, fn))]
      + UpdateQuery(fs[1..], id, fn)
  }

  function DropQuery(qs: seq<Query>, id: string): seq<Query> {
    if qs == [] then [] else (if qs[0].id == id then [] else [qs[0]]) + DropQuery(qs[1..], id)
  }

  function RemoveQuery(fs: seq<Folder>, id: string): seq<Folder> {
    if fs == [] then []
    else
      [fs[0].(queries := DropQuery(fs[0].queries, id), folders := RemoveQuery(fs[0].folders, id))]
      + RemoveQuery(fs[1..], id)
  }

  function DropPipeline(ps: seq<Pipeline>, id: string): seq<Pipeline> {
    if ps == [] then [] else (if ps[0].id == id then [] else [ps[0]]) + DropPipeline(ps[1..], id)
  }

  /** `removePipeline`: by the id of the entry. */
  function RemovePipeline(fs: seq<Folder>, id: string): seq<Folder> {
    if fs == [] then []
    else
      [fs[0].(pipelines := DropPipeline(fs[0].pipelines, id), folders := RemovePipeline(fs[0].folders, id))]
      + RemovePipeline(fs[1..], id)
  }

  function DropPipelineId(ps: seq<Pipeline>, pipelineId: string): seq<Pipeline> {
    if ps == [] then []
    else (if ps[0].pipelineId == pipelineId then [] else [ps[0]]) + DropPipelineId(ps[1..], pipelineId)
  }

  /** `removePipelineId`: by the pipeline that the entries point to. */
  function RemovePipelineId(fs: seq<Folder>, pipelineId: string): seq<Folder> {
    if fs == [] then []
    else
      [fs[0].(pipelines := DropPipelineId(fs[0].pipelines, pipelineId), folders := RemovePipelineId(fs[0].folders, pipelineId))]
      + RemovePipelineId(fs[1..], pipelineId)
  }

  /** `addPipeline`; `entry` is the fresh id of the new entry. */
  function AddPipeline(fs: seq<Folder>, folder: string, pipelineId: string, entry: string): seq<Folder> {
    UpdateFolder(RemovePipelineId(fs, pipelineId), folder, WithPipeline(Pipeline(entry, pipelineId)))
  }

  // ---------------------------------------------------------------- searching

  predicate HasFolder(fs: seq<Folder>, id: string) {
    fs != [] && (fs[0].id == id || HasFolder(fs[0].folders, id) || HasFolder(fs[1..], id))
  }

  /** `folderContains`. */
  predicate FolderContains(f: Folder, id: string) {
    f.id == id || HasFolder(f.folders, id)
  }

  function LastQueryIn(qs: seq<Query>, id: string, found: Option<Query>): Option<Query> {
    if qs == [] then found else LastQueryIn(qs[1..], id, if qs[0].id == id then Some(qs[0]) else found)
  }

  /** The last query with this id that the walk over the tree meets. */
  function LastQuery(fs: seq<Folder>, id: string, found: Option<Query>): Option<Query> {
    if fs == [] then found
    else LastQuery(fs[1..], id, LastQuery(fs[0].folders, id, LastQueryIn(fs[0].queries, id, found)))
  }

  function PipelinesIn(ps: seq<Pipeline>, id: string): seq<Pipeline> {
    if ps == [] then [] else (if ps[0].id == id then [ps[0]] else []) + PipelinesIn(ps[1..], id)
  }

  /** The entries with this id in the order of the walk. */
  function Pulled(fs: seq<Folder>, id: string): seq<Pipeline> {
    if fs == [] then [] else PipelinesIn(fs[0].pipelines, id) + Pulled(fs[0].folders, id) + Pulled(fs[1..], id)
  }

  /** The last folder with this id on one level. */
  function LastOnLevel(fs: seq<Folder>, id: string, found: Option<Folder>): Option<Folder> {
    if fs == [] then found else LastOnLevel(fs[1..], id, if fs[0].id == id then Some(fs[0]) else found)
  }

  /** What the walk finds below the folders of one level that stay. */
  function LastBelow(fs: seq<Folder>, id: string, found: Option<Folder>): Option<Folder>
    decreases fs, 0
  {
    if fs == [] then found
    else LastBelow(fs[1..], id, if fs[0].id == id then found else LastFolder(fs[0].folders, id, found))
  }

  /** The folder that `extractFolder` takes out: a level is filtered before the levels below it. */
  function LastFolder(fs: seq<Folder>, id: string, found: Option<Folder>): Option<Folder>
    decreases fs, 1
  {
    LastBelow(fs, id, LastOnLevel(fs, id, found))
  }

  /** The folder that the search of `moveFolder` finds. */
  function FindFolder(fs: seq<Folder>, id: string, target: Option<Folder>): Option<Folder> {
    if fs == [] then target
    else FindFolder(fs[1..], id, if fs[0].id == id then Some(fs[0]) else FindFolder(fs[0].folders, id, target))
  }

  // ---------------------------------------------------------------- moving

  function MovedQuery(fs: seq<Folder>, id: string, target: string): seq<Folder> {
    match LastQuery(fs, id, None)
    case None => fs
    case Some(q) => UpdateFolder(RemoveQuery(fs, id), target, WithQuery(q))
  }

  function MovedPipeline(fs: seq<Folder>, id: string, target: string): seq<Folder> {
    if Pulled(fs, id) == [] then fs
    else UpdateFolder(RemovePipeline(fs, id), target, WithPipeline(Pulled(fs, id)[0]))
  }

  function MovedFolder(fs: seq<Folder>, id: string, parent: string): seq<Folder> {
    match FindFolder(fs, id, None)
    case None => fs
    case Some(target) =>
      if parent != "" && FolderContains(target, parent) then fs
      else match LastFolder(fs, id, None) {
        case None => fs
        case Some(folder) => AddFolder(RemoveFolder(fs, id), parent, folder)
      }
  }

  lemma {:induction false} QueryAt(qs: seq<Query>, k: nat, id: string, found: Option<Query>)
    requires k < |qs|
    ensures DropQuery(qs[k..], id) == (if qs[k].id == id then [] else [qs[k]]) + DropQuery(qs[k + 1..], id)
    ensures LastQueryIn(qs[k..], id, found) == LastQueryIn(qs[k + 1..], id, if qs[k].id == id then Some(qs[k]) else found)
  {
    assert qs[k..][1..] == qs[k + 1..];
  }

  method TakeQuery(qs: seq<Query>, id: string, found: Option<Query>) returns (rest: seq<Query>, last: Option<Query>)
    ensures rest == DropQuery(qs, id) && last == LastQueryIn(qs, id, found)
  {
    rest, last := [], found;
    assert qs[0..] == qs && qs[|qs|..] == [] && DropQuery([], id) == [];
    assert forall last :: LastQueryIn([], id, last) == last;
    hide DropQuery, LastQueryIn;
    for k := 0 to |qs|
      invariant rest + DropQuery(qs[k..], id) == DropQuery(qs, id)
      invariant LastQueryIn(qs[k..], id, last) == LastQueryIn(qs, id, found)
    {
      QueryAt(qs, k, id, last);
      Assoc(rest, [qs[k]], DropQuery(qs[k + 1..], id));
      if qs[k].id == id {
        last := Some(qs[k]);
      } else {
        rest := rest + [qs[k]];
      }
    }
  }

  /** The walk of `extractQuery`, with the captured variable as a parameter and a result. */
  method WalkQueries(fs: seq<Folder>, id: string, found: Option<Query>) returns (rest: seq<Folder>, last: Option<Query>)
    ensures rest == RemoveQuery(fs, id) && last == LastQuery(fs, id, found)
  {
    rest, last := [], found;
    for k := 0 to |fs|
      invariant rest + RemoveQuery(fs[k..], id) == RemoveQuery(fs, id)
      invariant LastQuery(fs[k..], id, last) == LastQuery(fs, id, found)
    {
      var f := fs[k];
      assert fs[k..][1..] == fs[k + 1..];
      var queries, folders;
      queries, last := TakeQuery(f.queries, id, last);
      folders, last := WalkQueries(f.folders, id, last);
      rest := rest + [f.(queries := queries, folders := folders)];
    }
    assert fs[|fs|..] == [];
  }

  /** `moveQuery`. */
  method MoveQuery(fs: seq<Folder>, id: string, target: string) returns (after: seq<Folder>)
    ensures after == MovedQuery(fs, id, target)
  {
    var without, q := WalkQueries(fs, id, None);
    if q.None? {
      return fs;
    }
    return UpdateFolder(without, target, WithQuery(q.value));
  }

  lemma {:induction false} PipelineAt(ps: seq<Pipeline>, k: nat, id: string)
    requires k < |ps|
    ensures DropPipeline(ps[k..], id) == (if ps[k].id == id then [] else [ps[k]]) + DropPipeline(ps[k + 1..], id)
    ensures PipelinesIn(ps[k..], id) == (if ps[k].id == id then [ps[k]] else []) + PipelinesIn(ps[k + 1..], id)
  {
    assert ps[k..][1..] == ps[k + 1..];
  }

  method TakePipeline(ps: seq<Pipeline>, id: string) returns (rest: seq<Pipeline>, pulled: seq<Pipeline>)
    ensures rest == DropPipeline(ps, id) && pulled == PipelinesIn(ps, id)
  {
    rest, pulled := [], [];
    assert ps[0..] == ps && ps[|ps|..] == [] && DropPipeline([], id) == [] && PipelinesIn([], id) == [];
    hide DropPipeline, PipelinesIn;
    for k := 0 to |ps|
      invariant rest + DropPipeline(ps[k..], id) == DropPipeline(ps, id)
      invariant pulled + PipelinesIn(ps[k..], id) == PipelinesIn(ps, id)
    {
      PipelineAt(ps, k, id);
      Assoc(rest, [ps[k]], DropPipeline(ps[k + 1..], id));
      Assoc(pulled, [ps[k]], PipelinesIn(ps[k + 1..], id));
      if ps[k].id == id {
        pulled := pulled + [ps[k]];
      } else {
        rest := rest + [ps[k]];
      }
    }
  }

  /** The walk of `movePipeline`. */
  method WalkPipelines(fs: seq<Folder>, id: string) returns (rest: seq<Folder>, pulled: seq<Pipeline>)
    ensures rest == RemovePipeline(fs, id) && pulled == Pulled(fs, id)
  {
    rest, pulled := [], [];
    for k := 0 to |fs|
      invariant rest + RemovePipeline(fs[k..], id) == RemovePipeline(fs, id)
      invariant pulled + Pulled(fs[k..], id) == Pulled(fs, id)
    {
      var f := fs[k];
      assert fs[k..][1..] == fs[k + 1..];
      var pipelines, own := TakePipeline(f.pipelines, id);
      var folders, below := WalkPipelines(f.folders, id);
      Assoc(pulled, own + below, Pulled(fs[k + 1..], id));
      Assoc(pulled, own, below);
      pulled := pulled + own + below;
      rest := rest + [f.(pipelines := pipelines, folders := folders)];
    }
    assert fs[|fs|..] == [];
  }

  /** `movePipeline`. */
  method MovePipeline(fs: seq<Folder>, id: string, target: string) returns (after: seq<Folder>)
    ensures after == MovedPipeline(fs, id, target)
  {
    var without, pulled := WalkPipelines(fs, id);
    if pulled == [] {
      return fs;
    }
    return UpdateFolder(without, target, WithPipeline(pulled[0]));
  }

  /** The folders of one level that stay, without looking below them. */
  function StayOnLevel(fs: seq<Folder>, id: string): seq<Folder> {
    if fs == [] then [] else (if fs[0].id == id then [] else [fs[0]]) + StayOnLevel(fs[1..], id)
  }

  lemma {:induction false} FolderAt(fs: seq<Folder>, k: nat, id: string, found: Option<Folder>)
    requires k < |fs|
    ensures StayOnLevel(fs[k..], id) == (if fs[k].id == id then [] else [fs[k]]) + StayOnLevel(fs[k + 1..], id)
    ensures LastOnLevel(fs[k..], id, found) == LastOnLevel(fs[k + 1..], id, if fs[k].id == id then Some(fs[k]) else found)
  {
    assert fs[k..][1..] == fs[k + 1..];
  }

  method TakeFolder(fs: seq<Folder>, id: string, found: Option<Folder>) returns (rest: seq<Folder>, last: Option<Folder>)
    ensures rest == StayOnLevel(fs, id) && last == LastOnLevel(fs, id, found)
  {
    rest, last := [], found;
    assert fs[0..] == fs && fs[|fs|..] == [] && StayOnLevel([], id) == [];
    assert forall last :: LastOnLevel([], id, last) == last;
    hide StayOnLevel, LastOnLevel;
    for k := 0 to |fs|
      invariant rest + StayOnLevel(fs[k..], id) == StayOnLevel(fs, id)
      invariant LastOnLevel(fs[k..], id, last) == LastOnLevel(fs, id, found)
    {
      FolderAt(fs, k, id, last);
      Assoc(rest, [fs[k]], StayOnLevel(fs[k + 1..], id));
      if fs[k].id == id {
        last := Some(fs[k]);
      } else {
        rest := rest + [fs[k]];
      }
    }
  }

  lemma {:induction false} StayCons(fs: seq<Folder>, id: string)
    requires fs != []
    ensures StayOnLevel(fs, id) == (if fs[0].id == id then [] else [fs[0]]) + StayOnLevel(fs[1..], id)
    ensures fs[0].id == id ==> StayOnLevel(fs, id) == StayOnLevel(fs[1..], id)
  {
  }

  lemma {:induction false} RemoveCons(f: Folder, fs: seq<Folder>, id: string)
    ensures
      RemoveFolder([f] + fs, id)
      == (if f.id == id then [] else [f.(folders := RemoveFolder(f.folders, id))]) + RemoveFolder(fs, id)
  {
    assert ([f] + fs)[1..] == fs;
  }

  lemma {:induction false} BelowCons(f: Folder, fs: seq<Folder>, id: string, found: Option<Folder>)
    ensures
      LastBelow([f] + fs, id, found) == LastBelow(fs, id, if f.id == id then found else LastFolder(f.folders, id, found))
  {
    assert ([f] + fs)[1..] == fs;
  }

  /** Removing and searching below do not see the folders that the level lost. */
  lemma {:induction false} StayLaws(fs: seq<Folder>, id: string, found: Option<Folder>)
    ensures RemoveFolder(StayOnLevel(fs, id), id) == RemoveFolder(fs, id)
    ensures LastBelow(StayOnLevel(fs, id), id, found) == LastBelow(fs, id, found)
    ensures forall f :: f in StayOnLevel(fs, id) ==> f in fs && f.id != id
  {
    if fs != [] {
      var next := if fs[0].id == id then found else LastFolder(fs[0].folders, id, found);
      StayCons(fs, id);
      assert fs == [fs[0]] + fs[1..];
      hide StayOnLevel, RemoveFolder, LastBelow, LastFolder;
      StayLaws(fs[1..], id, next);
      RemoveCons(fs[0], fs[1..], id);
      BelowCons(fs[0], fs[1..], id, found);
      RemoveCons(fs[0], StayOnLevel(fs[1..], id), id);
      BelowCons(fs[0], StayOnLevel(fs[1..], id), id, found);
    }
  }

  /** The walk of `extractFolder`: first the level is filtered, then the rest is walked. */
  method WalkFolders(fs: seq<Folder>, id: string, found: Option<Folder>) returns (rest: seq<Folder>, last: Option<Folder>)
    ensures rest == RemoveFolder(fs, id) && last == LastFolder(fs, id, found)
    decreases fs
  {
    var level;
    level, last := TakeFolder(fs, id, found);
    hide RemoveFolder, LastBelow, LastFolder, StayOnLevel, LastOnLevel;
    StayLaws(fs, id, last);
    LevelsFirst(fs, id, found);
    assert level[0..] == level;
    rest := [];
    for k := 0 to |level|
      invariant rest + RemoveFolder(level[k..], id) == RemoveFolder(fs, id)
      invariant LastBelow(level[k..], id, last) == LastFolder(fs, id, found)
    {
      var f := level[k];
      assert f in level;
      assert level[k..] == [f] + level[k + 1..];
      RemoveCons(f, level[k + 1..], id);
      BelowCons(f, level[k + 1..], id, last);
      var folders;
      folders, last := WalkFolders(f.folders, id, last);
      Assoc(rest, [f.(folders := folders)], RemoveFolder(level[k + 1..], id));
      rest := rest + [f.(folders := folders)];
    }
    NothingLeft(level, id, last);
    assert rest + [] == rest;
  }

  lemma {:induction false} LevelsFirst(fs: seq<Folder>, id: string, found: Option<Folder>)
    ensures LastFolder(fs, id, found) == LastBelow(fs, id, LastOnLevel(fs, id, found))
  {
  }

  lemma {:induction false} NothingLeft(level: seq<Folder>, id: string, found: Option<Folder>)
    ensures RemoveFolder(level[|level|..], id) == [] && LastBelow(level[|level|..], id, found) == found
  {
  }

  method Find(fs: seq<Folder>, id: string, target: Option<Folder>) returns (last: Option<Folder>)
    ensures last == FindFolder(fs, id, target)
  {
    last := target;
    for k := 0 to |fs|
      invariant FindFolder(fs[k..], id, last) == FindFolder(fs, id, target)
    {
      assert fs[k..][1..] == fs[k + 1..];
      if fs[k].id == id {
        last := Some(fs[k]);
      } else {
        last := Find(fs[k].folders, id, last);
      }
    }
    assert fs[|fs|..] == [];
  }

  /** `moveFolder`: never into itself or below itself. */
  method MoveFolder(fs: seq<Folder>, id: string, parent: string) returns (after: seq<Folder>)
    ensures after == MovedFolder(fs, id, parent)
  {
    var target := Find(fs, id, None);
    if target.None? {
      return fs;
    }
    if parent != "" && FolderContains(target.value, parent) {
      return fs;
    }
    var without, folder := WalkFolders(fs, id, None);
    if folder.None? {
      return fs;
    }
    return AddFolder(without, parent, folder.value);
  }

  function PipelineIdsIn(ps: seq<Pipeline>): set<string> {
    if ps == [] then {} else {ps[0].pipelineId} + PipelineIdsIn(ps[1..])
  }

  function PlacedIds(fs: seq<Folder>): set<string> {
    if fs == [] then {} else PipelineIdsIn(fs[0].pipelines) + PlacedIds(fs[0].folders) + PlacedIds(fs[1..])
  }

  /** `placedPipelineIds`. */
  method PlacedPipelineIds(fs: seq<Folder>) returns (out: set<string>)
    ensures out == PlacedIds(fs)
  {
    out := {};
    for k := 0 to |fs|
      invariant out + PlacedIds(fs[k..]) == PlacedIds(fs)
    {
      assert fs[k..][1..] == fs[k + 1..];
      var ps := fs[k].pipelines;
      ghost var before := out;
      for j := 0 to |ps|
        invariant out + PipelineIdsIn(ps[j..]) == before + PipelineIdsIn(ps)
      {
        assert ps[j..][1..] == ps[j + 1..];
        out := out + {ps[j].pipelineId};
      }
      assert ps[|ps|..] == [];
      var below := PlacedPipelineIds(fs[k].folders);
      out := out + below;
    }
    assert fs[|fs|..] == [];
  }
}
