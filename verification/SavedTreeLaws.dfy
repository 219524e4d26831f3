/** A tree as a bag of places, and what every single edit of the tree does to that bag. */
module SavedTreeLaws {
  import opened Text
  import opened SavedTree

  // ---------------------------------------------------------------- a tree as a bag of places

  datatype Item = AFolder(id: string, name: string) | AQuery(query: Query) | APipeline(entry: Pipeline)

  /** An item and the folder that holds it; the top level is the empty text. */
  datatype Place = Place(parent: string, item: Item)

  function IdOf(item: Item): string {
    match item
    case AFolder(id, _) => id
    case AQuery(q) => q.id
    case APipeline(p) => p.id
  }

  function QueryPlaces(qs: seq<Query>, parent: string): multiset<Place> {
    if qs == [] then multiset{} else multiset{Place(parent, AQuery(qs[0]))} + QueryPlaces(qs[1..], parent)
  }

  function PipelinePlaces(ps: seq<Pipeline>, parent: string): multiset<Place> {
    if ps == [] then multiset{} else multiset{Place(parent, APipeline(ps[0]))} + PipelinePlaces(ps[1..], parent)
  }

  /** A folder with its own queries and pipelines. */
  function Own(f: Folder, parent: string): multiset<Place> {
    multiset{Place(parent, AFolder(f.id, f.name))} + QueryPlaces(f.queries, f.id) + PipelinePlaces(f.pipelines, f.id)
  }

  /** Every item of the tree, each in its folder. */
  function Places(fs: seq<Folder>, parent: string): multiset<Place> {
    if fs == [] then multiset{}
    else Own(fs[0], parent) + Places(fs[0].folders, fs[0].id) + Places(fs[1..], parent)
  }

  function Whole(fs: seq<Folder>): multiset<Place> {
    Places(fs, "")
  }

  /** No item occurs twice and no two items share an id. */
  ghost predicate Unique(bag: multiset<Place>) {
    && (forall a :: a in bag ==> bag[a] == 1)
    && (forall a, b :: a in bag && b in bag && IdOf(a.item) == IdOf(b.item) ==> a == b)
  }

  /** Every pipeline is placed at most once. */
  ghost predicate PlacedOnce(bag: multiset<Place>) {
    forall a, b :: a in bag && b in bag && SamePipeline(a.item, b.item) ==> a == b
  }

  predicate SamePipeline(a: Item, b: Item) {
    a.APipeline? && b.APipeline? && a.entry.pipelineId == b.entry.pipelineId
  }

  ghost predicate Good(bag: multiset<Place>) {
    Unique(bag) && PlacedOnce(bag)
  }

  // ---------------------------------------------------------------- bags

  lemma {:induction false} BagAssoc<T>(a: multiset<T>, b: multiset<T>, c: multiset<T>)
    ensures a + (b + c) == a + b + c
  {
  }

  lemma {:induction false} SwapLeft<T>(a: multiset<T>, b: multiset<T>, x: multiset<T>, y: multiset<T>)
    requires x <= a
    ensures (a - x + y) + b == (a + b) - x + y && x <= a + b
  {
  }

  lemma {:induction false} SwapRight<T>(a: multiset<T>, b: multiset<T>, x: multiset<T>, y: multiset<T>)
    requires x <= b
    ensures a + (b - x + y) == (a + b) - x + y && x <= a + b
  {
  }

  lemma {:induction false} SwapAll<T>(x: multiset<T>, y: multiset<T>)
    ensures x - x + y == y
  {
  }

  lemma {:induction false} SubKeeps(a: multiset<Place>, b: multiset<Place>)
    requires a <= b
    ensures Unique(b) ==> Unique(a)
    ensures PlacedOnce(b) ==> PlacedOnce(a)
  {
    assert forall x :: x in a ==> x in b && a[x] <= b[x];
  }

  /** The parts of a bag share no id. */
  lemma {:induction false} Apart(a: multiset<Place>, b: multiset<Place>, x: Place, y: Place)
    requires Unique(a + b) && x in a && y in b
    ensures IdOf(x.item) != IdOf(y.item)
  {
    assert (a + b)[x] == a[x] + b[x] && (a + b)[y] == a[y] + b[y];
    assert x in a + b && y in a + b;
  }

  lemma {:induction false} AddKeeps(bag: multiset<Place>, x: Place)
    requires Good(bag) && forall a :: a in bag ==> IdOf(a.item) != IdOf(x.item) && !SamePipeline(a.item, x.item)
    ensures Good(bag + multiset{x})
  {
    var c := bag + multiset{x};
    hide IdOf, SamePipeline;
    assert forall a :: a in c ==> a in bag || a == x;
    assert x !in bag;
    forall a | a in c ensures c[a] == 1 {
      assert a != x ==> c[a] == bag[a];
    }
    forall a, b | a in c && b in c && SamePipeline(a.item, b.item) ensures a == b {
      SameEitherWay(a.item, b.item);
    }
  }

  lemma {:induction false} SameEitherWay(a: Item, b: Item)
    ensures SamePipeline(a, b) == SamePipeline(b, a)
  {
  }

  /** One place exchanged for another with the same id and the same pipeline. */
  lemma {:induction false} SwapKeeps(bag: multiset<Place>, gone: Place, put: Place)
    requires Good(bag) && gone in bag && IdOf(gone.item) == IdOf(put.item)
    requires put.item.APipeline? ==> SamePipeline(gone.item, put.item)
    ensures Good(bag - multiset{gone} + multiset{put})
  {
    var rest := bag - multiset{gone};
    SubKeeps(rest, bag);
    assert rest[gone] + 1 == bag[gone] == 1;
    forall a | a in rest ensures IdOf(a.item) != IdOf(put.item) && !SamePipeline(a.item, put.item) {
      assert a in bag && a != gone;
    }
    AddKeeps(rest, put);
  }

  // ---------------------------------------------------------------- folders

  lemma {:induction false} HasFolderPlace(fs: seq<Folder>, parent: string, id: string)
    requires HasFolder(fs, id)
    ensures exists a :: a in Places(fs, parent) && a.item.AFolder? && a.item.id == id
  {
    hide QueryPlaces, PipelinePlaces;
    if fs[0].id == id {
      assert Place(parent, AFolder(id, fs[0].name)) in Places(fs, parent);
    } else if HasFolder(fs[0].folders, id) {
      HasFolderPlace(fs[0].folders, fs[0].id, id);
      var a :| a in Places(fs[0].folders, fs[0].id) && a.item.AFolder? && a.item.id == id;
      assert a in Places(fs, parent);
    } else {
      HasFolderPlace(fs[1..], parent, id);
      var a :| a in Places(fs[1..], parent) && a.item.AFolder? && a.item.id == id;
      assert a in Places(fs, parent);
    }
  }

  lemma {:induction false} QueryPlacesAre(qs: seq<Query>, parent: string)
    ensures forall a :: a in QueryPlaces(qs, parent) ==> a.item.AQuery? && a.parent == parent && a.item.query in qs
  {
    if qs != [] {
      QueryPlacesAre(qs[1..], parent);
    }
  }

  lemma {:induction false} PipelinePlacesAre(ps: seq<Pipeline>, parent: string)
    ensures forall a :: a in PipelinePlaces(ps, parent) ==> a.item.APipeline? && a.parent == parent && a.item.entry in ps
  {
    if ps != [] {
      PipelinePlacesAre(ps[1..], parent);
    }
  }

  lemma {:induction false} PlaceHasFolder(fs: seq<Folder>, parent: string, a: Place)
    requires a in Places(fs, parent) && a.item.AFolder?
    ensures HasFolder(fs, a.item.id)
  {
    QueryPlacesAre(fs[0].queries, fs[0].id);
    PipelinePlacesAre(fs[0].pipelines, fs[0].id);
    hide QueryPlaces, PipelinePlaces;
    if a in Places(fs[0].folders, fs[0].id) {
      PlaceHasFolder(fs[0].folders, fs[0].id, a);
    } else if a in Places(fs[1..], parent) {
      PlaceHasFolder(fs[1..], parent, a);
    }
  }

  /** The bag of a list with one folder in front. */
  lemma {:induction false} PlacesCons(f: Folder, fs: seq<Folder>, parent: string)
    ensures Places([f] + fs, parent) == Places([f], parent) + Places(fs, parent)
    ensures Places([f], parent) == Own(f, parent) + Places(f.folders, f.id)
  {
    assert ([f] + fs)[1..] == fs && [f][1..] == [];
    hide Own;
    assert Places([f], parent) == Own(f, parent) + Places(f.folders, f.id) + multiset{};
  }

  lemma {:induction false} PlacesSplit(fs: seq<Folder>, parent: string)
    requires fs != []
    ensures Places(fs, parent) == Places([fs[0]], parent) + Places(fs[1..], parent)
    ensures Places([fs[0]], parent) == Own(fs[0], parent) + Places(fs[0].folders, fs[0].id)
    ensures Places(fs[0].folders, fs[0].id) <= Places(fs, parent) && Places(fs[1..], parent) <= Places(fs, parent)
  {
    assert fs == [fs[0]] + fs[1..];
    hide Own, Places;
    PlacesCons(fs[0], fs[1..], parent);
  }

  lemma {:induction false} PlacesAppend(a: seq<Folder>, b: seq<Folder>, parent: string)
    ensures Places(a + b, parent) == Places(a, parent) + Places(b, parent)
  {
    if a == [] {
      assert a + b == b;
    } else {
      hide Own, Places;
      PlacesAppend(a[1..], b, parent);
      assert a == [a[0]] + a[1..];
      Assoc([a[0]], a[1..], b);
      PlacesCons(a[0], a[1..], parent);
      PlacesCons(a[0], a[1..] + b, parent);
      BagAssoc(Places([a[0]], parent), Places(a[1..], parent), Places(b, parent));
    }
  }

  lemma {:induction false} OwnFolder(f: Folder, parent: string)
    ensures Place(parent, AFolder(f.id, f.name)) in Places([f], parent)
  {
    PlacesCons(f, [], parent);
  }

  /** In a tree with unique ids a folder that stands in front occurs nowhere behind or below. */
  lemma {:induction false} OnlyInFront(fs: seq<Folder>, parent: string, id: string)
    requires fs != [] && Unique(Places(fs, parent))
    ensures fs[0].id == id ==> !HasFolder(fs[1..], id)
    ensures HasFolder(fs[0].folders, id) ==> fs[0].id != id && !HasFolder(fs[1..], id)
  {
    hide Places, Own, Unique, HasFolder;
    PlacesSplit(fs, parent);
    OwnFolder(fs[0], parent);
    if HasFolder(fs[1..], id) {
      HasFolderPlace(fs[1..], parent, id);
      var b :| b in Places(fs[1..], parent) && b.item.AFolder? && b.item.id == id;
      Apart(Places([fs[0]], parent), Places(fs[1..], parent), Place(parent, AFolder(fs[0].id, fs[0].name)), b);
      if HasFolder(fs[0].folders, id) {
        HasFolderPlace(fs[0].folders, fs[0].id, id);
        var a :| a in Places(fs[0].folders, fs[0].id) && a.item.AFolder? && a.item.id == id;
        Apart(Places([fs[0]], parent), Places(fs[1..], parent), a, b);
      }
    } else if HasFolder(fs[0].folders, id) {
      BelowIsOther(fs, parent, id);
    }
  }

  lemma {:induction false} BelowIsOther(fs: seq<Folder>, parent: string, id: string)
    requires fs != [] && Unique(Places(fs, parent)) && HasFolder(fs[0].folders, id)
    ensures fs[0].id != id
  {
    hide Places, Own, Unique, HasFolder;
    PlacesSplit(fs, parent);
    SubKeeps(Places([fs[0]], parent), Places(fs, parent));
    HasFolderPlace(fs[0].folders, fs[0].id, id);
    var a :| a in Places(fs[0].folders, fs[0].id) && a.item.AFolder? && a.item.id == id;
    OwnHolds(fs[0], parent);
    Apart(Own(fs[0], parent), Places(fs[0].folders, fs[0].id), Place(parent, AFolder(fs[0].id, fs[0].name)), a);
  }

  lemma {:induction false} OwnHolds(f: Folder, parent: string)
    ensures Place(parent, AFolder(f.id, f.name)) in Own(f, parent)
  {
  }

  lemma {:induction false} UpdateMisses(fs: seq<Folder>, id: string, fn: Folder -> Folder)
    requires !HasFolder(fs, id)
    ensures UpdateFolder(fs, id, fn) == fs
  {
    if fs != [] {
      UpdateMisses(fs[0].folders, id, fn);
      UpdateMisses(fs[1..], id, fn);
      assert fs == [fs[0]] + fs[1..];
    }
  }

  lemma {:induction false} UpdateCons(fs: seq<Folder>, id: string, fn: Folder -> Folder)
    requires fs != []
    ensures
      UpdateFolder(fs, id, fn)
      == [if fs[0].id == id then fn(fs[0]) else fs[0].(folders := UpdateFolder(fs[0].folders, id, fn))]
         + UpdateFolder(fs[1..], id, fn)
  {
  }

  /** Updating a folder exchanges its part of the bag for that of the new folder. */
  lemma {:induction false} UpdatePlaces(fs: seq<Folder>, parent: string, id: string, fn: Folder -> Folder)
    returns (f: Folder, at: string)
    requires Unique(Places(fs, parent)) && HasFolder(fs, id)
    ensures f.id == id && Places([f], at) <= Places(fs, parent)
    ensures Places(UpdateFolder(fs, id, fn), parent) == Places(fs, parent) - Places([f], at) + Places([fn(f)], at)
  {
    OnlyInFront(fs, parent, id);
    assert HasFolder(fs, id) == (fs[0].id == id || HasFolder(fs[0].folders, id) || HasFolder(fs[1..], id));
    hide Places, Own, Unique, HasFolder, UpdateFolder;
    PlacesSplit(fs, parent);
    UpdateCons(fs, id, fn);
    SubKeeps(Places(fs[0].folders, fs[0].id), Places(fs, parent));
    SubKeeps(Places(fs[1..], parent), Places(fs, parent));
    var head, own, sub, rest :=
      Places([fs[0]], parent), Own(fs[0], parent), Places(fs[0].folders, fs[0].id), Places(fs[1..], parent);
    if fs[0].id == id {
      f, at := fs[0], parent;
      UpdateMisses(fs[1..], id, fn);
      PlacesCons(fn(f), fs[1..], parent);
      SwapAll(head, Places([fn(f)], parent));
      SwapLeft(head, rest, head, Places([fn(f)], parent));
    } else if HasFolder(fs[0].folders, id) {
      f, at := UpdatePlaces(fs[0].folders, fs[0].id, id, fn);
      UpdateMisses(fs[1..], id, fn);
      var g := fs[0].(folders := UpdateFolder(fs[0].folders, id, fn));
      PlacesCons(g, fs[1..], parent);
      SameOwn(fs[0], g, parent);
      SwapRight(own, sub, Places([f], at), Places([fn(f)], at));
      SwapLeft(head, rest, Places([f], at), Places([fn(f)], at));
    } else {
      f, at := UpdatePlaces(fs[1..], parent, id, fn);
      UpdateMisses(fs[0].folders, id, fn);
      PlacesCons(fs[0], UpdateFolder(fs[1..], id, fn), parent);
      SwapRight(head, rest, Places([f], at), Places([fn(f)], at));
    }
  }

  lemma {:induction false} SameOwn(f: Folder, g: Folder, parent: string)
    requires f.id == g.id && f.name == g.name && f.queries == g.queries && f.pipelines == g.pipelines
    ensures Own(f, parent) == Own(g, parent)
  {
  }

  // ---------------------------------------------------------------- adding to a folder

  lemma {:induction false} QueryPlacesAppend(a: seq<Query>, q: Query, parent: string)
    ensures QueryPlaces(a + [q], parent) == QueryPlaces(a, parent) + multiset{Place(parent, AQuery(q))}
  {
    if a == [] {
      assert a + [q] == [q] && [q][1..] == [];
    } else {
      QueryPlacesAppend(a[1..], q, parent);
      assert (a + [q])[1..] == a[1..] + [q];
    }
  }

  lemma {:induction false} PipelinePlacesAppend(a: seq<Pipeline>, e: Pipeline, parent: string)
    ensures PipelinePlaces(a + [e], parent) == PipelinePlaces(a, parent) + multiset{Place(parent, APipeline(e))}
  {
    if a == [] {
      assert a + [e] == [e] && [e][1..] == [];
    } else {
      PipelinePlacesAppend(a[1..], e, parent);
      assert (a + [e])[1..] == a[1..] + [e];
    }
  }

  lemma {:induction false} QueryAdded(f: Folder, q: Query, at: string)
    ensures Places([WithQuery(q)(f)], at) == Places([f], at) + multiset{Place(f.id, AQuery(q))}
  {
    var g := WithQuery(q)(f);
    QueryPlacesAppend(f.queries, q, f.id);
    hide Places, QueryPlaces, PipelinePlaces;
    PlacesCons(f, [], at);
    PlacesCons(g, [], at);
    assert Own(g, at) == Own(f, at) + multiset{Place(f.id, AQuery(q))};
  }

  lemma {:induction false} PipelineAdded(f: Folder, e: Pipeline, at: string)
    ensures Places([WithPipeline(e)(f)], at) == Places([f], at) + multiset{Place(f.id, APipeline(e))}
  {
    var g := WithPipeline(e)(f);
    PipelinePlacesAppend(f.pipelines, e, f.id);
    hide Places, QueryPlaces, PipelinePlaces;
    PlacesCons(f, [], at);
    PlacesCons(g, [], at);
    assert Own(g, at) == Own(f, at) + multiset{Place(f.id, APipeline(e))};
  }

  lemma {:induction false} FolderAdded(f: Folder, folder: Folder, at: string)
    ensures Places([WithFolder(folder)(f)], at) == Places([f], at) + Places([folder], f.id)
  {
    var g := WithFolder(folder)(f);
    hide Places, Own;
    PlacesCons(f, [], at);
    PlacesCons(g, [], at);
    PlacesAppend(f.folders, [folder], f.id);
    SameOwn(f, g, at);
    BagAssoc(Own(f, at), Places(f.folders, f.id), Places([folder], f.id));
  }

  lemma {:induction false} FolderRenamed(f: Folder, name: string, at: string)
    ensures
      Places([WithName(name)(f)], at)
      == Places([f], at) - multiset{Place(at, AFolder(f.id, f.name))} + multiset{Place(at, AFolder(f.id, name))}
  {
    var g := WithName(name)(f);
    hide Places, QueryPlaces, PipelinePlaces;
    PlacesCons(f, [], at);
    PlacesCons(g, [], at);
  }

  lemma {:induction false} PlusInside<T>(a: multiset<T>, x: multiset<T>, y: multiset<T>)
    requires x <= a
    ensures a - x + (x + y) == a + y
  {
  }

  lemma {:induction false} SwapInside<T>(a: multiset<T>, x: multiset<T>, o: multiset<T>, n: multiset<T>)
    requires x <= a && o <= x
    ensures a - x + (x - o + n) == a - o + n
  {
  }

  /** A query put into a folder of the tree. */
  lemma {:induction false} AddQueryPlaces(fs: seq<Folder>, id: string, q: Query)
    requires Unique(Whole(fs))
    ensures
      Whole(UpdateFolder(fs, id, WithQuery(q)))
      == Whole(fs) + (if HasFolder(fs, id) then multiset{Place(id, AQuery(q))} else multiset{})
  {
    hide Places, WithQuery, UpdateFolder, HasFolder, Unique;
    if HasFolder(fs, id) {
      var f, at := UpdatePlaces(fs, "", id, WithQuery(q));
      QueryAdded(f, q, at);
      PlusInside(Whole(fs), Places([f], at), multiset{Place(id, AQuery(q))});
    } else {
      UpdateMisses(fs, id, WithQuery(q));
    }
  }

  lemma {:induction false} AddEntryPlaces(fs: seq<Folder>, id: string, e: Pipeline)
    requires Unique(Whole(fs))
    ensures
      Whole(UpdateFolder(fs, id, WithPipeline(e)))
      == Whole(fs) + (if HasFolder(fs, id) then multiset{Place(id, APipeline(e))} else multiset{})
  {
    hide Places, WithPipeline, UpdateFolder, HasFolder, Unique;
    if HasFolder(fs, id) {
      var f, at := UpdatePlaces(fs, "", id, WithPipeline(e));
      PipelineAdded(f, e, at);
      PlusInside(Whole(fs), Places([f], at), multiset{Place(id, APipeline(e))});
    } else {
      UpdateMisses(fs, id, WithPipeline(e));
    }
  }

  lemma {:induction false} AddFolderPlaces(fs: seq<Folder>, parent: string, folder: Folder)
    requires Unique(Whole(fs))
    ensures
      Whole(AddFolder(fs, parent, folder))
      == Whole(fs) + (if parent == "" || HasFolder(fs, parent) then Places([folder], parent) else multiset{})
  {
    hide Places, WithFolder, UpdateFolder, HasFolder, Unique;
    if parent == "" {
      PlacesAppend(fs, [folder], "");
    } else if HasFolder(fs, parent) {
      var f, at := UpdatePlaces(fs, "", parent, WithFolder(folder));
      FolderAdded(f, folder, at);
      PlusInside(Whole(fs), Places([f], at), Places([folder], parent));
    } else {
      UpdateMisses(fs, parent, WithFolder(folder));
    }
  }

  lemma {:induction false} RenamePlaces(fs: seq<Folder>, id: string, name: string) returns (o: Place, n: Place)
    requires Unique(Whole(fs)) && HasFolder(fs, id)
    ensures o in Whole(fs) && o.item.AFolder? && IdOf(o.item) == id && n == Place(o.parent, AFolder(id, name))
    ensures Whole(UpdateFolder(fs, id, WithName(name))) == Whole(fs) - multiset{o} + multiset{n}
  {
    hide Places, WithName, UpdateFolder, HasFolder, Unique;
    var f, at := UpdatePlaces(fs, "", id, WithName(name));
    o, n := Place(at, AFolder(f.id, f.name)), Place(at, AFolder(f.id, name));
    FolderRenamed(f, name, at);
    OwnFolder(f, at);
    SwapInside(Whole(fs), Places([f], at), multiset{o}, multiset{n});
  }

  // ---------------------------------------------------------------- taking out

  predicate IsQuery(x: Place, id: string) {
    x.item.AQuery? && x.item.query.id == id
  }

  predicate IsEntry(x: Place, id: string) {
    x.item.APipeline? && x.item.entry.id == id
  }

  predicate PointsTo(x: Place, pipelineId: string) {
    x.item.APipeline? && x.item.entry.pipelineId == pipelineId
  }

  lemma {:induction false} PipelineIdsAre(ps: seq<Pipeline>, parent: string, x: string)
    ensures x in PipelineIdsIn(ps) <==> exists a :: a in PipelinePlaces(ps, parent) && PointsTo(a, x)
  {
    if ps != [] {
      PipelineIdsAre(ps[1..], parent, x);
      var a := Place(parent, APipeline(ps[0]));
      assert a in PipelinePlaces(ps, parent);
      assert PointsTo(a, x) <==> ps[0].pipelineId == x;
      assert forall c :: c in PipelinePlaces(ps, parent) <==> c == a || c in PipelinePlaces(ps[1..], parent);
    }
  }

  lemma {:induction false} OwnPipelines(f: Folder, parent: string, x: string)
    ensures x in PipelineIdsIn(f.pipelines) <==> exists a :: a in Own(f, parent) && PointsTo(a, x)
  {
    PipelineIdsAre(f.pipelines, f.id, x);
    forall a | a in Own(f, parent) && PointsTo(a, x) ensures a in PipelinePlaces(f.pipelines, f.id) {
      QueriesOnly(f.queries, f.id, a);
    }
  }

  lemma {:induction false} QueriesOnly(qs: seq<Query>, parent: string, a: Place)
    ensures a in QueryPlaces(qs, parent) ==> a.item.AQuery?
  {
    if qs != [] {
      QueriesOnly(qs[1..], parent, a);
    }
  }

  /** The set of placed pipelines: those that some entry in the tree points to. */
  lemma {:induction false} PlacedIdsAre(fs: seq<Folder>, parent: string, x: string)
    ensures x in PlacedIds(fs) <==> exists a :: a in Places(fs, parent) && PointsTo(a, x)
  {
    if fs != [] {
      PlacedIdsAre(fs[0].folders, fs[0].id, x);
      PlacedIdsAre(fs[1..], parent, x);
      OwnPipelines(fs[0], parent, x);
      var own, below, rest := Own(fs[0], parent), Places(fs[0].folders, fs[0].id), Places(fs[1..], parent);
      assert Places(fs, parent) == own + below + rest;
      hide Own, Places, PlacedIds, PointsTo;
      assert forall a :: a in own + below + rest <==> a in own || a in below || a in rest;
    }
  }

  /** A count that falls to zero or stays. */
  function Kept(gone: bool, n: nat): nat {
    if gone then 0 else n
  }

  lemma {:induction false} DropQueryCount(qs: seq<Query>, id: string, parent: string, x: Place)
    ensures QueryPlaces(DropQuery(qs, id), parent)[x] == Kept(IsQuery(x, id), QueryPlaces(qs, parent)[x])
  {
    if qs != [] {
      var rest := DropQuery(qs[1..], id);
      DropQueryCount(qs[1..], id, parent, x);
      if qs[0].id == id {
        assert DropQuery(qs, id) == rest;
      } else {
        assert DropQuery(qs, id) == [qs[0]] + rest && ([qs[0]] + rest)[1..] == rest;
      }
    }
  }

  lemma {:induction false} DropPipelineCount(ps: seq<Pipeline>, id: string, parent: string, x: Place)
    ensures PipelinePlaces(DropPipeline(ps, id), parent)[x] == Kept(IsEntry(x, id), PipelinePlaces(ps, parent)[x])
  {
    if ps != [] {
      var rest := DropPipeline(ps[1..], id);
      DropPipelineCount(ps[1..], id, parent, x);
      if ps[0].id == id {
        assert DropPipeline(ps, id) == rest;
      } else {
        assert DropPipeline(ps, id) == [ps[0]] + rest && ([ps[0]] + rest)[1..] == rest;
      }
    }
  }

  lemma {:induction false} DropPipelineIdCount(ps: seq<Pipeline>, pipelineId: string, parent: string, x: Place)
    ensures PipelinePlaces(DropPipelineId(ps, pipelineId), parent)[x] == Kept(PointsTo(x, pipelineId), PipelinePlaces(ps, parent)[x])
  {
    if ps != [] {
      var rest := DropPipelineId(ps[1..], pipelineId);
      DropPipelineIdCount(ps[1..], pipelineId, parent, x);
      if ps[0].pipelineId == pipelineId {
        assert DropPipelineId(ps, pipelineId) == rest;
      } else {
        assert DropPipelineId(ps, pipelineId) == [ps[0]] + rest && ([ps[0]] + rest)[1..] == rest;
      }
    }
  }

  lemma {:induction false} OwnKinds(f: Folder, x: Place)
    ensures !x.item.AQuery? ==> QueryPlaces(f.queries, f.id)[x] == 0
    ensures !x.item.APipeline? ==> PipelinePlaces(f.pipelines, f.id)[x] == 0
  {
    QueryPlacesAre(f.queries, f.id);
    PipelinePlacesAre(f.pipelines, f.id);
    hide QueryPlaces, PipelinePlaces;
  }

  lemma {:induction false} CountSplit(f: Folder, fs: seq<Folder>, parent: string, x: Place)
    ensures
      Places([f] + fs, parent)[x]
      == (if x == Place(parent, AFolder(f.id, f.name)) then 1 else 0) + QueryPlaces(f.queries, f.id)[x]
         + PipelinePlaces(f.pipelines, f.id)[x] + Places(f.folders, f.id)[x] + Places(fs, parent)[x]
  {
    hide Places, QueryPlaces, PipelinePlaces;
    PlacesCons(f, fs, parent);
  }

  /** When every part of a tree keeps its count or loses it, so does the tree. */
  lemma {:induction false} KeptCount(
    f: Folder, g: Folder, rest: seq<Folder>, after: seq<Folder>, parent: string, x: Place, gone: bool)
    requires f.id == g.id && f.name == g.name && (gone ==> !x.item.AFolder?)
    requires QueryPlaces(g.queries, f.id)[x] == Kept(gone, QueryPlaces(f.queries, f.id)[x])
    requires PipelinePlaces(g.pipelines, f.id)[x] == Kept(gone, PipelinePlaces(f.pipelines, f.id)[x])
    requires Places(g.folders, f.id)[x] == Kept(gone, Places(f.folders, f.id)[x])
    requires Places(after, parent)[x] == Kept(gone, Places(rest, parent)[x])
    ensures Places([g] + after, parent)[x] == Kept(gone, Places([f] + rest, parent)[x])
  {
    hide Places, QueryPlaces, PipelinePlaces;
    CountSplit(f, rest, parent, x);
    CountSplit(g, after, parent, x);
  }

  /** Removing a query takes out exactly the places of queries with its id. */
  lemma {:induction false} RemoveQueryCount(fs: seq<Folder>, id: string, parent: string, x: Place)
    ensures Places(RemoveQuery(fs, id), parent)[x] == Kept(IsQuery(x, id), Places(fs, parent)[x])
  {
    if fs != [] {
      var f, rest := fs[0], fs[1..];
      var g := f.(queries := DropQuery(f.queries, id), folders := RemoveQuery(f.folders, id));
      assert RemoveQuery(fs, id) == [g] + RemoveQuery(rest, id) && fs == [f] + rest;
      OwnKinds(f, x);
      hide Own, Places, RemoveQuery, QueryPlaces, PipelinePlaces;
      RemoveQueryCount(f.folders, id, f.id, x);
      RemoveQueryCount(rest, id, parent, x);
      DropQueryCount(f.queries, id, f.id, x);
      KeptCount(f, g, rest, RemoveQuery(rest, id), parent, x, IsQuery(x, id));
    }
  }

  /** Removing an entry takes out exactly the places of entries with its id. */
  lemma {:induction false} RemovePipelineCount(fs: seq<Folder>, id: string, parent: string, x: Place)
    ensures Places(RemovePipeline(fs, id), parent)[x] == Kept(IsEntry(x, id), Places(fs, parent)[x])
  {
    if fs != [] {
      var f, rest := fs[0], fs[1..];
      var g := f.(pipelines := DropPipeline(f.pipelines, id), folders := RemovePipeline(f.folders, id));
      assert RemovePipeline(fs, id) == [g] + RemovePipeline(rest, id) && fs == [f] + rest;
      OwnKinds(f, x);
      hide Own, Places, RemovePipeline, QueryPlaces, PipelinePlaces;
      RemovePipelineCount(f.folders, id, f.id, x);
      RemovePipelineCount(rest, id, parent, x);
      DropPipelineCount(f.pipelines, id, f.id, x);
      KeptCount(f, g, rest, RemovePipeline(rest, id), parent, x, IsEntry(x, id));
    }
  }

  /** Removing a pipeline takes out exactly the entries that point to it. */
  lemma {:induction false} RemovePipelineIdCount(fs: seq<Folder>, pipelineId: string, parent: string, x: Place)
    ensures Places(RemovePipelineId(fs, pipelineId), parent)[x] == Kept(PointsTo(x, pipelineId), Places(fs, parent)[x])
  {
    if fs != [] {
      var f, rest := fs[0], fs[1..];
      var g := f.(pipelines := DropPipelineId(f.pipelines, pipelineId), folders := RemovePipelineId(f.folders, pipelineId));
      assert RemovePipelineId(fs, pipelineId) == [g] + RemovePipelineId(rest, pipelineId) && fs == [f] + rest;
      OwnKinds(f, x);
      hide Own, Places, RemovePipelineId, QueryPlaces, PipelinePlaces;
      RemovePipelineIdCount(f.folders, pipelineId, f.id, x);
      RemovePipelineIdCount(rest, pipelineId, parent, x);
      DropPipelineIdCount(f.pipelines, pipelineId, f.id, x);
      KeptCount(f, g, rest, RemovePipelineId(rest, pipelineId), parent, x, PointsTo(x, pipelineId));
    }
  }

  lemma {:induction false} RemoveMisses(fs: seq<Folder>, id: string)
    requires !HasFolder(fs, id)
    ensures RemoveFolder(fs, id) == fs
  {
    if fs != [] {
      RemoveMisses(fs[0].folders, id);
      RemoveMisses(fs[1..], id);
      assert fs == [fs[0]] + fs[1..];
    }
  }

  lemma {:induction false} LevelMisses(fs: seq<Folder>, id: string, found: Option<Folder>)
    requires !HasFolder(fs, id)
    ensures LastOnLevel(fs, id, found) == found
  {
    if fs != [] {
      LevelMisses(fs[1..], id, found);
    }
  }

  lemma {:induction false} SearchMisses(fs: seq<Folder>, id: string, found: Option<Folder>)
    requires !HasFolder(fs, id)
    ensures LastBelow(fs, id, found) == found && LastFolder(fs, id, found) == found && FindFolder(fs, id, found) == found
    decreases fs
  {
    LevelMisses(fs, id, found);
    if fs != [] {
      SearchMisses(fs[0].folders, id, found);
      SearchMisses(fs[1..], id, found);
    }
  }

  lemma {:induction false} FoundHere(fs: seq<Folder>, id: string, found: Option<Folder>)
    requires fs != [] && fs[0].id == id && !HasFolder(fs[1..], id)
    ensures LastFolder(fs, id, found) == Some(fs[0]) && FindFolder(fs, id, found) == Some(fs[0])
  {
    LevelMisses(fs[1..], id, Some(fs[0]));
    SearchMisses(fs[1..], id, Some(fs[0]));
  }

  lemma {:induction false} FoundBelow(fs: seq<Folder>, id: string, found: Option<Folder>)
    requires fs != [] && fs[0].id != id && !HasFolder(fs[1..], id)
    ensures LastFolder(fs, id, found) == LastFolder(fs[0].folders, id, found)
    ensures FindFolder(fs, id, found) == FindFolder(fs[0].folders, id, found)
  {
    LevelMisses(fs[1..], id, found);
    SearchMisses(fs[1..], id, LastFolder(fs[0].folders, id, found));
    SearchMisses(fs[1..], id, FindFolder(fs[0].folders, id, found));
  }

  lemma {:induction false} FoundBehind(fs: seq<Folder>, id: string, found: Option<Folder>)
    requires fs != [] && fs[0].id != id && !HasFolder(fs[0].folders, id)
    ensures LastFolder(fs, id, found) == LastFolder(fs[1..], id, found)
    ensures FindFolder(fs, id, found) == FindFolder(fs[1..], id, found)
  {
    SearchMisses(fs[0].folders, id, LastOnLevel(fs, id, found));
    SearchMisses(fs[0].folders, id, found);
  }

  lemma {:induction false} RemoveUnfold(fs: seq<Folder>, id: string)
    requires fs != []
    ensures
      fs[0].id == id ==> RemoveFolder(fs, id) == RemoveFolder(fs[1..], id)
    ensures
      fs[0].id != id ==>
        RemoveFolder(fs, id) == [fs[0].(folders := RemoveFolder(fs[0].folders, id))] + RemoveFolder(fs[1..], id)
  {
  }

  lemma {:induction false} BagCommutes<T>(a: multiset<T>, b: multiset<T>)
    ensures a + b == b + a
  {
  }

  lemma {:induction false} TakeLeft<T>(all: multiset<T>, a: multiset<T>, x: multiset<T>, b: multiset<T>)
    requires all == a + x + b
    ensures all == a + b + x
  {
  }

  /** Removing a folder takes out its part of the bag, and both searches find that folder. */
  lemma {:induction false} RemoveFolderPlaces(fs: seq<Folder>, parent: string, id: string) returns (f: Folder, at: string)
    requires Unique(Places(fs, parent)) && HasFolder(fs, id)
    ensures f.id == id && Places(fs, parent) == Places(RemoveFolder(fs, id), parent) + Places([f], at)
    ensures forall found :: LastFolder(fs, id, found) == Some(f) && FindFolder(fs, id, found) == Some(f)
  {
    OnlyInFront(fs, parent, id);
    assert HasFolder(fs, id) == (fs[0].id == id || HasFolder(fs[0].folders, id) || HasFolder(fs[1..], id));
    var g := fs[0].(folders := RemoveFolder(fs[0].folders, id));
    hide Places, Own, Unique, HasFolder, RemoveFolder, LastFolder, FindFolder;
    RemoveUnfold(fs, id);
    PlacesSplit(fs, parent);
    var head, own, sub, rest :=
      Places([fs[0]], parent), Own(fs[0], parent), Places(fs[0].folders, fs[0].id), Places(fs[1..], parent);
    SubKeeps(sub, Places(fs, parent));
    SubKeeps(rest, Places(fs, parent));
    if fs[0].id == id {
      f, at := fs[0], parent;
      RemoveMisses(fs[1..], id);
      BagCommutes(head, rest);
      forall found ensures LastFolder(fs, id, found) == Some(f) && FindFolder(fs, id, found) == Some(f) {
        FoundHere(fs, id, found);
      }
    } else if HasFolder(fs[0].folders, id) {
      f, at := RemoveFolderPlaces(fs[0].folders, fs[0].id, id);
      RemoveMisses(fs[1..], id);
      PlacesCons(g, fs[1..], parent);
      SameOwn(fs[0], g, parent);
      BagAssoc(own, Places(g.folders, g.id), Places([f], at));
      TakeLeft(Places(fs, parent), Places([g], parent), Places([f], at), rest);
      forall found ensures LastFolder(fs, id, found) == Some(f) && FindFolder(fs, id, found) == Some(f) {
        FoundBelow(fs, id, found);
      }
    } else {
      f, at := RemoveFolderPlaces(fs[1..], parent, id);
      RemoveMisses(fs[0].folders, id);
      PlacesCons(fs[0], RemoveFolder(fs[1..], id), parent);
      BagAssoc(head, Places(RemoveFolder(fs[1..], id), parent), Places([f], at));
      forall found ensures LastFolder(fs, id, found) == Some(f) && FindFolder(fs, id, found) == Some(f) {
        FoundBehind(fs, id, found);
      }
    }
  }
}
