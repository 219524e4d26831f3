/** Moves and runs of edits of the saved tree: what is conserved and kept. */
module SavedTreeRuns {
  import opened Text
  import opened SavedTree
  import opened SavedTreeLaws

  // ---------------------------------------------------------------- finding

  ghost predicate NoQuery(bag: multiset<Place>, id: string) {
    forall x :: x in bag ==> !IsQuery(x, id)
  }

  ghost predicate NoEntry(bag: multiset<Place>, id: string) {
    forall x :: x in bag ==> !IsEntry(x, id)
  }

  ghost predicate Holds(bag: multiset<Place>, item: Item) {
    exists x :: x in bag && x.item == item
  }

  lemma {:induction false} HoldsMore(a: multiset<Place>, b: multiset<Place>, item: Item)
    requires Holds(a, item) && a <= b
    ensures Holds(b, item)
  {
  }

  lemma {:induction false} LastQueryInLaw(qs: seq<Query>, id: string, found: Option<Query>, parent: string)
    ensures
      var last, bag := LastQueryIn(qs, id, found), QueryPlaces(qs, parent);
      (last == found && NoQuery(bag, id)) || (last.Some? && last.value.id == id && Holds(bag, AQuery(last.value)))
  {
    if qs != [] {
      var next := if qs[0].id == id then Some(qs[0]) else found;
      LastQueryInLaw(qs[1..], id, next, parent);
      var first := Place(parent, AQuery(qs[0]));
      assert first in QueryPlaces(qs, parent);
      assert QueryPlaces(qs[1..], parent) <= QueryPlaces(qs, parent);
      assert forall x :: x in QueryPlaces(qs, parent) ==> x == first || x in QueryPlaces(qs[1..], parent);
      hide QueryPlaces;
      if NoQuery(QueryPlaces(qs[1..], parent), id) && qs[0].id == id {
        assert first.item == AQuery(qs[0]);
      }
    }
  }

  lemma {:induction false} InFive<T>(a: multiset<T>, b: multiset<T>, c: multiset<T>, d: multiset<T>, e: multiset<T>)
    ensures var all := a + b + c + d + e;
      && b <= all && c <= all && d <= all && e <= all
      && forall x :: x in all ==> x in a || x in b || x in c || x in d || x in e
  {
  }

  lemma {:induction false} PartsOfPlaces(fs: seq<Folder>, parent: string)
    requires fs != []
    ensures QueryPlaces(fs[0].queries, fs[0].id) <= Places(fs, parent)
    ensures PipelinePlaces(fs[0].pipelines, fs[0].id) <= Places(fs, parent)
    ensures Places(fs[0].folders, fs[0].id) <= Places(fs, parent) && Places(fs[1..], parent) <= Places(fs, parent)
    ensures forall x :: x in Places(fs, parent) && !x.item.AFolder? ==>
      || x in QueryPlaces(fs[0].queries, fs[0].id) || x in PipelinePlaces(fs[0].pipelines, fs[0].id)
      || x in Places(fs[0].folders, fs[0].id) || x in Places(fs[1..], parent)
  {
    var f := fs[0];
    var a, q, p, d, r :=
      multiset{Place(parent, AFolder(f.id, f.name))}, QueryPlaces(f.queries, f.id), PipelinePlaces(f.pipelines, f.id),
      Places(f.folders, f.id), Places(fs[1..], parent);
    assert Places(fs, parent) == a + q + p + d + r;
    hide QueryPlaces, PipelinePlaces, Places;
    InFive(a, q, p, d, r);
  }

  /** The walk finds a query with the id if the tree holds one. */
  lemma {:induction false} LastQueryLaw(fs: seq<Folder>, id: string, found: Option<Query>, parent: string)
    ensures
      var last, bag := LastQuery(fs, id, found), Places(fs, parent);
      (last == found && NoQuery(bag, id)) || (last.Some? && last.value.id == id && Holds(bag, AQuery(last.value)))
  {
    if fs != [] {
      var f := fs[0];
      var a := LastQueryIn(f.queries, id, found);
      var b := LastQuery(f.folders, id, a);
      PartsOfPlaces(fs, parent);
      PipelinePlacesAre(f.pipelines, f.id);
      LastQueryInLaw(f.queries, id, found, f.id);
      LastQueryLaw(f.folders, id, a, f.id);
      LastQueryLaw(fs[1..], id, b, parent);
      hide Places, QueryPlaces, PipelinePlaces, LastQueryIn, NoQuery, Holds;
      var last := LastQuery(fs, id, found);
      assert last == LastQuery(fs[1..], id, b);
      if NoQuery(Places(fs[1..], parent), id) && last == b {
        if NoQuery(Places(f.folders, f.id), id) && b == a {
          if NoQuery(QueryPlaces(f.queries, f.id), id) && a == found {
            NoQueryAnywhere(fs, id, parent);
          } else {
            HoldsMore(QueryPlaces(f.queries, f.id), Places(fs, parent), AQuery(last.value));
          }
        } else {
          HoldsMore(Places(f.folders, f.id), Places(fs, parent), AQuery(last.value));
        }
      } else {
        HoldsMore(Places(fs[1..], parent), Places(fs, parent), AQuery(last.value));
      }
    } else {
      assert Places(fs, parent) == multiset{};
    }
  }

  lemma {:induction false} NoQueryAnywhere(fs: seq<Folder>, id: string, parent: string)
    requires fs != [] && NoQuery(Places(fs[1..], parent), id) && NoQuery(Places(fs[0].folders, fs[0].id), id)
    requires NoQuery(QueryPlaces(fs[0].queries, fs[0].id), id)
    ensures NoQuery(Places(fs, parent), id)
  {
    PartsOfPlaces(fs, parent);
    PipelinePlacesAre(fs[0].pipelines, fs[0].id);
    hide Places, QueryPlaces, PipelinePlaces;
  }

  lemma {:induction false} PipelinesInLaw(ps: seq<Pipeline>, id: string, parent: string)
    ensures PipelinesIn(ps, id) == [] ==> NoEntry(PipelinePlaces(ps, parent), id)
    ensures PipelinesIn(ps, id) != [] ==>
      PipelinesIn(ps, id)[0].id == id && Holds(PipelinePlaces(ps, parent), APipeline(PipelinesIn(ps, id)[0]))
  {
    if ps != [] {
      PipelinesInLaw(ps[1..], id, parent);
      var first := Place(parent, APipeline(ps[0]));
      assert first in PipelinePlaces(ps, parent);
      assert PipelinePlaces(ps[1..], parent) <= PipelinePlaces(ps, parent);
      assert forall x :: x in PipelinePlaces(ps, parent) ==> x == first || x in PipelinePlaces(ps[1..], parent);
      hide PipelinePlaces;
      if ps[0].id == id {
        assert first.item == APipeline(PipelinesIn(ps, id)[0]);
      }
    }
  }

  lemma {:induction false} PulledLaw(fs: seq<Folder>, id: string, parent: string)
    ensures Pulled(fs, id) == [] ==> NoEntry(Places(fs, parent), id)
    ensures Pulled(fs, id) != [] ==> Pulled(fs, id)[0].id == id && Holds(Places(fs, parent), APipeline(Pulled(fs, id)[0]))
  {
    if fs != [] {
      var f := fs[0];
      var own, below, behind := PipelinesIn(f.pipelines, id), Pulled(f.folders, id), Pulled(fs[1..], id);
      PartsOfPlaces(fs, parent);
      QueryPlacesAre(f.queries, f.id);
      PipelinesInLaw(f.pipelines, id, f.id);
      PulledLaw(f.folders, id, f.id);
      PulledLaw(fs[1..], id, parent);
      assert Pulled(fs, id) == own + below + behind;
      hide Places, QueryPlaces, PipelinePlaces, PipelinesIn, Pulled, Holds;
      if own != [] {
        HoldsMore(PipelinePlaces(f.pipelines, f.id), Places(fs, parent), APipeline(own[0]));
      } else if below != [] {
        HoldsMore(Places(f.folders, f.id), Places(fs, parent), APipeline(below[0]));
      } else if behind != [] {
        HoldsMore(Places(fs[1..], parent), Places(fs, parent), APipeline(behind[0]));
      }
    }
  }

  // ---------------------------------------------------------------- moves

  lemma {:induction false} FoldersStayWithoutQuery(fs: seq<Folder>, id: string, x: string)
    ensures HasFolder(RemoveQuery(fs, id), x) == HasFolder(fs, x)
  {
    if fs != [] {
      FoldersStayWithoutQuery(fs[0].folders, id, x);
      FoldersStayWithoutQuery(fs[1..], id, x);
      assert RemoveQuery(fs, id)[1..] == RemoveQuery(fs[1..], id);
    }
  }

  lemma {:induction false} FoldersStayWithoutEntry(fs: seq<Folder>, id: string, x: string)
    ensures HasFolder(RemovePipeline(fs, id), x) == HasFolder(fs, x)
  {
    if fs != [] {
      FoldersStayWithoutEntry(fs[0].folders, id, x);
      FoldersStayWithoutEntry(fs[1..], id, x);
      assert RemovePipeline(fs, id)[1..] == RemovePipeline(fs[1..], id);
    }
  }

  lemma {:induction false} FoldersStayWithoutPipeline(fs: seq<Folder>, pipelineId: string, x: string)
    ensures HasFolder(RemovePipelineId(fs, pipelineId), x) == HasFolder(fs, x)
  {
    if fs != [] {
      FoldersStayWithoutPipeline(fs[0].folders, pipelineId, x);
      FoldersStayWithoutPipeline(fs[1..], pipelineId, x);
      assert RemovePipelineId(fs, pipelineId)[1..] == RemovePipelineId(fs[1..], pipelineId);
    }
  }

  lemma {:induction false} WithoutOne(bag: multiset<Place>, after: multiset<Place>, o: Place)
    requires o in bag && bag[o] == 1 && after[o] == 0 && forall x :: x != o ==> after[x] == bag[x]
    ensures after == bag - multiset{o}
  {
  }

  /** Removing a query of a tree with unique ids takes out one place. */
  lemma {:induction false} RemoveQueryPlaces(fs: seq<Folder>, o: Place)
    requires Unique(Whole(fs)) && o in Whole(fs) && o.item.AQuery?
    ensures Whole(RemoveQuery(fs, o.item.query.id)) == Whole(fs) - multiset{o}
  {
    var bag, after := Whole(fs), Whole(RemoveQuery(fs, o.item.query.id));
    hide Places, RemoveQuery;
    forall x ensures after[x] == if x == o then 0 else bag[x] {
      RemoveQueryCount(fs, o.item.query.id, "", x);
      if IsQuery(x, o.item.query.id) && x in bag {
        assert IdOf(x.item) == IdOf(o.item);
      }
    }
    WithoutOne(bag, after, o);
  }

  lemma {:induction false} RemoveEntryPlaces(fs: seq<Folder>, o: Place)
    requires Unique(Whole(fs)) && o in Whole(fs) && o.item.APipeline?
    ensures Whole(RemovePipeline(fs, o.item.entry.id)) == Whole(fs) - multiset{o}
  {
    var bag, after := Whole(fs), Whole(RemovePipeline(fs, o.item.entry.id));
    hide Places, RemovePipeline;
    forall x ensures after[x] == if x == o then 0 else bag[x] {
      RemovePipelineCount(fs, o.item.entry.id, "", x);
      if IsEntry(x, o.item.entry.id) && x in bag {
        assert IdOf(x.item) == IdOf(o.item);
      }
    }
    WithoutOne(bag, after, o);
  }

  /**
   * Moving a query changes nothing if there is none; otherwise it takes the query from its place and, if and only if the
   * target exists, puts it there. Everything else stays in its folder.
   */
  lemma {:induction false} MoveQueryPlaces(fs: seq<Folder>, id: string, target: string) returns (o: Option<Place>)
    requires Unique(Whole(fs))
    ensures o.None? ==> NoQuery(Whole(fs), id) && MovedQuery(fs, id, target) == fs
    ensures o.Some? ==>
      && o.value in Whole(fs) && IsQuery(o.value, id)
      && Whole(MovedQuery(fs, id, target))
         == Whole(fs) - multiset{o.value} + (if HasFolder(fs, target) then multiset{Place(target, o.value.item)} else multiset{})
  {
    hide Places, UpdateFolder, RemoveQuery, LastQuery, HasFolder, Unique, WithQuery;
    LastQueryLaw(fs, id, None, "");
    match LastQuery(fs, id, None) {
      case None => o := None;
      case Some(q) =>
        var x :| x in Whole(fs) && x.item == AQuery(q);
        o := Some(x);
        RemoveQueryPlaces(fs, x);
        SubKeeps(Whole(RemoveQuery(fs, id)), Whole(fs));
        FoldersStayWithoutQuery(fs, id, target);
        AddQueryPlaces(RemoveQuery(fs, id), target, q);
    }
  }

  /** The same for an entry that points to a pipeline. */
  lemma {:induction false} MovePipelinePlaces(fs: seq<Folder>, id: string, target: string) returns (o: Option<Place>)
    requires Unique(Whole(fs))
    ensures o.None? ==> NoEntry(Whole(fs), id) && MovedPipeline(fs, id, target) == fs
    ensures o.Some? ==>
      && o.value in Whole(fs) && IsEntry(o.value, id)
      && Whole(MovedPipeline(fs, id, target))
         == Whole(fs) - multiset{o.value} + (if HasFolder(fs, target) then multiset{Place(target, o.value.item)} else multiset{})
  {
    hide Places, UpdateFolder, RemovePipeline, Pulled, HasFolder, Unique, WithPipeline;
    PulledLaw(fs, id, "");
    if Pulled(fs, id) == [] {
      o := None;
    } else {
      var e := Pulled(fs, id)[0];
      var x :| x in Whole(fs) && x.item == APipeline(e);
      o := Some(x);
      RemoveEntryPlaces(fs, x);
      SubKeeps(Whole(RemovePipeline(fs, id)), Whole(fs));
      FoldersStayWithoutEntry(fs, id, target);
      AddEntryPlaces(RemovePipeline(fs, id), target, e);
    }
  }

  lemma {:induction false} FolderInBag(fs: seq<Folder>, parent: string, id: string)
    ensures HasFolder(fs, id) <==> exists a :: a in Places(fs, parent) && a.item.AFolder? && a.item.id == id
  {
    hide Places, HasFolder;
    if HasFolder(fs, id) {
      HasFolderPlace(fs, parent, id);
    }
    forall a | a in Places(fs, parent) && a.item.AFolder? && a.item.id == id ensures HasFolder(fs, id) {
      PlaceHasFolder(fs, parent, a);
    }
  }

  lemma {:induction false} ContainsIs(f: Folder, id: string)
    ensures FolderContains(f, id) == HasFolder([f], id)
  {
    assert [f][1..] == [];
  }

  /** A folder outside the removed one is still there. */
  lemma {:induction false} FolderStays(fs: seq<Folder>, id: string, f: Folder, at: string, x: string)
    requires Whole(fs) == Whole(RemoveFolder(fs, id)) + Places([f], at) && !FolderContains(f, x)
    ensures HasFolder(RemoveFolder(fs, id), x) == HasFolder(fs, x)
  {
    hide Places, HasFolder, RemoveFolder, FolderContains;
    ContainsIs(f, x);
    FolderInBag(fs, "", x);
    FolderInBag(RemoveFolder(fs, id), "", x);
    FolderInBag([f], at, x);
    var a, b, c := Whole(fs), Whole(RemoveFolder(fs, id)), Places([f], at);
    assert forall p :: p in a <==> p in b || p in c;
  }

  lemma {:induction false} PlaceOfFolder(f: Folder, at: string, to: string)
    ensures Place(at, AFolder(f.id, f.name)) in Places([f], at)
    ensures
      Places([f], to) == Places([f], at) - multiset{Place(at, AFolder(f.id, f.name))} + multiset{Place(to, AFolder(f.id, f.name))}
  {
    OwnFolder(f, at);
    PlacesCons(f, [], at);
    PlacesCons(f, [], to);
    hide Places, QueryPlaces, PipelinePlaces;
  }

  lemma {:induction false} BagMove<T>(rest: multiset<T>, x: multiset<T>, o: multiset<T>, n: multiset<T>)
    requires o <= x
    ensures rest + (x - o + n) == rest + x - o + n
  {
  }

  lemma {:induction false} FolderGone(fs: seq<Folder>, id: string, parent: string)
    requires !HasFolder(fs, id)
    ensures MovedFolder(fs, id, parent) == fs
  {
    SearchMisses(fs, id, None);
  }

  /** A folder with its parts moved from one bag of places to another. */
  lemma {:induction false} MovedBag<T>(
    all: multiset<T>, rest: multiset<T>, x: multiset<T>, moved: multiset<T>, o: multiset<T>, n: multiset<T>)
    requires all == rest + x && o <= x && moved == x - o + n
    ensures rest + moved == all - o + n && rest + multiset{} == all - x && x <= all && o <= all
  {
    BagMove(rest, x, o, n);
  }

  /** Where a folder stands. */
  function FolderPlace(f: Folder, at: string): Place {
    Place(at, AFolder(f.id, f.name))
  }

  /** The move is refused: the target is the folder itself or lies below it. */
  predicate IntoItself(f: Folder, parent: string) {
    parent != "" && FolderContains(f, parent)
  }

  predicate TargetExists(fs: seq<Folder>, parent: string) {
    parent == "" || HasFolder(fs, parent)
  }

  lemma {:induction false} MovedFolderIs(fs: seq<Folder>, id: string, parent: string, f: Folder)
    requires FindFolder(fs, id, None) == Some(f) && LastFolder(fs, id, None) == Some(f)
    ensures MovedFolder(fs, id, parent) == if IntoItself(f, parent) then fs else AddFolder(RemoveFolder(fs, id), parent, f)
  {
    hide FindFolder, LastFolder, RemoveFolder, AddFolder;
  }

  /**
   * Moving a folder into itself or below itself changes nothing. Moving it anywhere else takes it with all that it holds
   * from its place and, if and only if the target exists, puts it there; its content and everything else stay in their
   * folders.
   */
  lemma {:induction false} MoveFolderPlaces(fs: seq<Folder>, id: string, parent: string) returns (f: Folder, at: string)
    requires Unique(Whole(fs)) && HasFolder(fs, id)
    ensures f.id == id && FindFolder(fs, id, None) == Some(f)
    ensures Places([f], at) <= Whole(fs) && FolderPlace(f, at) in Whole(fs)
    ensures IntoItself(f, parent) ==> MovedFolder(fs, id, parent) == fs
    ensures !IntoItself(f, parent) && TargetExists(fs, parent) ==>
      Whole(MovedFolder(fs, id, parent)) == Whole(fs) - multiset{FolderPlace(f, at)} + multiset{FolderPlace(f, parent)}
    ensures !IntoItself(f, parent) && !TargetExists(fs, parent) ==>
      Whole(MovedFolder(fs, id, parent)) == Whole(fs) - Places([f], at)
  {
    f, at := RemoveFolderPlaces(fs, "", id);
    var without := RemoveFolder(fs, id);
    assert FindFolder(fs, id, None) == Some(f) && LastFolder(fs, id, None) == Some(f);
    assert IntoItself(f, parent) <==> parent != "" && FolderContains(f, parent);
    hide Places, RemoveFolder, HasFolder, FindFolder, LastFolder, FolderContains, AddFolder, Unique, MovedFolder, IntoItself;
    MovedFolderIs(fs, id, parent, f);
    PlaceOfFolder(f, at, parent);
    SubKeeps(Whole(without), Whole(fs));
    AddFolderPlaces(without, parent, f);
    if parent != "" && !FolderContains(f, parent) {
      FolderStays(fs, id, f, at, parent);
    }
    MovedBag(
      Whole(fs), Whole(without), Places([f], at), Places([f], parent),
      multiset{FolderPlace(f, at)}, multiset{FolderPlace(f, parent)});
    assert FolderPlace(f, at) in Places([f], at);
  }

  // ---------------------------------------------------------------- editing a query

  lemma {:induction false} MapMisses(qs: seq<Query>, id: string, fn: Query -> Query, parent: string)
    requires NoQuery(QueryPlaces(qs, parent), id)
    ensures MapQueries(qs, id, fn) == qs
  {
    if qs != [] {
      assert Place(parent, AQuery(qs[0])) in QueryPlaces(qs, parent);
      assert QueryPlaces(qs[1..], parent) <= QueryPlaces(qs, parent);
      MapMisses(qs[1..], id, fn, parent);
      assert qs == [qs[0]] + qs[1..];
    }
  }

  lemma {:induction false} LessHasNoQuery(a: multiset<Place>, b: multiset<Place>, id: string)
    requires NoQuery(b, id) && a <= b
    ensures NoQuery(a, id)
  {
  }

  lemma {:induction false} EditMisses(fs: seq<Folder>, id: string, fn: Query -> Query, parent: string)
    requires NoQuery(Places(fs, parent), id)
    ensures UpdateQuery(fs, id, fn) == fs
  {
    if fs != [] {
      var f, rest := fs[0], fs[1..];
      hide *;
      PartsOfPlaces(fs, parent);
      LessHasNoQuery(QueryPlaces(f.queries, f.id), Places(fs, parent), id);
      LessHasNoQuery(Places(f.folders, f.id), Places(fs, parent), id);
      LessHasNoQuery(Places(rest, parent), Places(fs, parent), id);
      MapMisses(f.queries, id, fn, f.id);
      EditMisses(f.folders, id, fn, f.id);
      EditMisses(rest, id, fn, parent);
      EditCons(f, rest, id, fn);
      assert fs == [f] + rest;
    } else {
      NothingToEdit(id, fn);
    }
  }

  lemma {:induction false} NothingToEdit(id: string, fn: Query -> Query)
    ensures UpdateQuery([], id, fn) == []
  {
  }

  /** The place of a query after the edit. */
  function Edited(o: Place, fn: Query -> Query): Place
    requires o.item.AQuery?
  {
    Place(o.parent, AQuery(fn(o.item.query)))
  }

  /** A query in one part of a bag with unique ids is in no other part. */
  lemma {:induction false} QueryElsewhere(a: multiset<Place>, b: multiset<Place>, id: string)
    requires Unique(a + b)
    ensures NoQuery(a, id) || NoQuery(b, id)
  {
    if !NoQuery(a, id) {
      var x :| x in a && IsQuery(x, id);
      hide Unique;
      forall y | y in b ensures !IsQuery(y, id) {
        Apart(a, b, x, y);
      }
    }
  }

  lemma {:induction false} MapUnfold(qs: seq<Query>, id: string, fn: Query -> Query, parent: string)
    requires qs != []
    ensures QueryPlaces(qs, parent) == multiset{Place(parent, AQuery(qs[0]))} + QueryPlaces(qs[1..], parent)
    ensures
      QueryPlaces(MapQueries(qs, id, fn), parent)
      == multiset{Place(parent, AQuery(if qs[0].id == id then fn(qs[0]) else qs[0]))}
         + QueryPlaces(MapQueries(qs[1..], id, fn), parent)
  {
    assert MapQueries(qs, id, fn)[1..] == MapQueries(qs[1..], id, fn);
  }

  lemma {:induction false} MapPlaces(qs: seq<Query>, id: string, fn: Query -> Query, parent: string) returns (o: Place)
    requires Unique(QueryPlaces(qs, parent)) && !NoQuery(QueryPlaces(qs, parent), id)
    ensures o in QueryPlaces(qs, parent) && IsQuery(o, id)
    ensures QueryPlaces(MapQueries(qs, id, fn), parent) == QueryPlaces(qs, parent) - multiset{o} + multiset{Edited(o, fn)}
  {
    var first, rest := multiset{Place(parent, AQuery(qs[0]))}, QueryPlaces(qs[1..], parent);
    MapUnfold(qs, id, fn, parent);
    hide Unique, QueryPlaces, MapQueries;
    SubKeeps(rest, first + rest);
    QueryElsewhere(first, rest, id);
    if qs[0].id == id {
      o := Place(parent, AQuery(qs[0]));
      assert o in first && IsQuery(o, id);
      MapMisses(qs[1..], id, fn, parent);
      SwapAll(first, multiset{Edited(o, fn)});
      SwapLeft(first, rest, first, multiset{Edited(o, fn)});
    } else {
      assert NoQuery(first, id);
      o := MapPlaces(qs[1..], id, fn, parent);
      SwapRight(first, rest, multiset{o}, multiset{Edited(o, fn)});
    }
  }

  /** A folder and its pipelines, without its queries. */
  function Others(f: Folder, parent: string): multiset<Place> {
    multiset{Place(parent, AFolder(f.id, f.name))} + PipelinePlaces(f.pipelines, f.id)
  }

  lemma {:induction false} Regrouped<T>(a: multiset<T>, q: multiset<T>, p: multiset<T>, d: multiset<T>, r: multiset<T>)
    ensures a + q + p + d + r == (a + p) + (q + (d + r))
  {
  }

  lemma {:induction false} FourParts(f: Folder, rest: seq<Folder>, parent: string)
    ensures
      Places([f] + rest, parent)
      == Others(f, parent) + (QueryPlaces(f.queries, f.id) + (Places(f.folders, f.id) + Places(rest, parent)))
    ensures forall id :: NoQuery(Others(f, parent), id)
  {
    PipelinePlacesAre(f.pipelines, f.id);
    PlacesCons(f, rest, parent);
    hide Places, QueryPlaces, PipelinePlaces;
    Regrouped(
      multiset{Place(parent, AFolder(f.id, f.name))}, QueryPlaces(f.queries, f.id), PipelinePlaces(f.pipelines, f.id),
      Places(f.folders, f.id), Places(rest, parent));
  }

  lemma {:induction false} UniqueParts(h: multiset<Place>, q: multiset<Place>, d: multiset<Place>, r: multiset<Place>)
    requires Unique(h + (q + (d + r)))
    ensures Unique(q) && Unique(d) && Unique(r) && Unique(d + r) && Unique(q + (d + r))
  {
    hide Unique;
    SubKeeps(q + (d + r), h + (q + (d + r)));
    SubKeeps(d + r, q + (d + r));
    SubKeeps(q, q + (d + r));
    SubKeeps(d, d + r);
    SubKeeps(r, d + r);
  }

  lemma {:induction false} QueryInParts(
    h: multiset<Place>, q: multiset<Place>, d: multiset<Place>, r: multiset<Place>, id: string)
    requires Unique(h + (q + (d + r))) && NoQuery(h, id) && !NoQuery(h + (q + (d + r)), id)
    ensures !NoQuery(q, id) ==> NoQuery(d, id) && NoQuery(r, id)
    ensures !NoQuery(d, id) ==> NoQuery(q, id) && NoQuery(r, id)
    ensures NoQuery(q, id) && NoQuery(d, id) ==> !NoQuery(r, id)
  {
    hide Unique;
    UniqueParts(h, q, d, r);
    QueryElsewhere(q, d + r, id);
    QueryElsewhere(d, r, id);
    InSum(d, r, id);
    InSum(q, d + r, id);
    InSum(h, q + (d + r), id);
  }

  lemma {:induction false} InSum(a: multiset<Place>, b: multiset<Place>, id: string)
    ensures NoQuery(a + b, id) <==> NoQuery(a, id) && NoQuery(b, id)
  {
    assert forall x :: x in a ==> x in a + b;
    assert forall x :: x in b ==> x in a + b;
  }

  lemma {:induction false} EditCons(f: Folder, rest: seq<Folder>, id: string, fn: Query -> Query)
    ensures
      UpdateQuery([f] + rest, id, fn)
      == [f.(queries := MapQueries(f.queries, id, fn), folders := UpdateQuery(f.folders, id, fn))] + UpdateQuery(rest, id, fn)
  {
    assert ([f] + rest)[1..] == rest;
  }

  /** Four parts of a bag as one. */
  function Bag(h: multiset<Place>, q: multiset<Place>, d: multiset<Place>, r: multiset<Place>): multiset<Place> {
    h + (q + (d + r))
  }

  /** Exchanging a place in one of four parts of a bag exchanges it in the bag. */
  lemma {:induction false} SwapPart(
    h: multiset<Place>, q: multiset<Place>, d: multiset<Place>, r: multiset<Place>, x: Place, y: Place)
    ensures x in q ==> Bag(h, q - multiset{x} + multiset{y}, d, r) == Bag(h, q, d, r) - multiset{x} + multiset{y} && x in Bag(h, q, d, r)
    ensures x in d ==> Bag(h, q, d - multiset{x} + multiset{y}, r) == Bag(h, q, d, r) - multiset{x} + multiset{y} && x in Bag(h, q, d, r)
    ensures x in r ==> Bag(h, q, d, r - multiset{x} + multiset{y}) == Bag(h, q, d, r) - multiset{x} + multiset{y} && x in Bag(h, q, d, r)
  {
    var a, b := multiset{x}, multiset{y};
    if x in q {
      SwapLeft(q, d + r, a, b);
      SwapRight(h, q + (d + r), a, b);
    }
    if x in d {
      SwapLeft(d, r, a, b);
      SwapRight(q, d + r, a, b);
      SwapRight(h, q + (d + r), a, b);
    }
    if x in r {
      SwapRight(d, r, a, b);
      SwapRight(q, d + r, a, b);
      SwapRight(h, q + (d + r), a, b);
    }
  }

  lemma {:induction false} BagIs(h: multiset<Place>, q: multiset<Place>, d: multiset<Place>, r: multiset<Place>)
    ensures Bag(h, q, d, r) == h + (q + (d + r))
  {
  }

  lemma {:induction false} QueryIsQuery(o: Place, id: string)
    requires IsQuery(o, id)
    ensures o.item.AQuery?
  {
  }

  lemma {:induction false} SomeFolder(fs: seq<Folder>, parent: string, id: string)
    requires !NoQuery(Places(fs, parent), id)
    ensures fs != []
  {
  }

  lemma {:induction false} OthersKept(f: Folder, parent: string, id: string, fn: Query -> Query)
    ensures Others(f.(queries := MapQueries(f.queries, id, fn), folders := UpdateQuery(f.folders, id, fn)), parent) == Others(f, parent)
  {
  }

  /** Editing a query exchanges its place for that of the edited one. */
  lemma {:induction false} EditPlaces(fs: seq<Folder>, id: string, fn: Query -> Query, parent: string) returns (o: Place)
    requires Unique(Places(fs, parent)) && !NoQuery(Places(fs, parent), id)
    ensures o in Places(fs, parent) && IsQuery(o, id)
    ensures Places(UpdateQuery(fs, id, fn), parent) == Places(fs, parent) - multiset{o} + multiset{Edited(o, fn)}
  {
    hide *;
    SomeFolder(fs, parent, id);
    var f, rest := fs[0], fs[1..];
    var g := f.(queries := MapQueries(f.queries, id, fn), folders := UpdateQuery(f.folders, id, fn));
    var h, q, d, r := Others(f, parent), QueryPlaces(f.queries, f.id), Places(f.folders, f.id), Places(rest, parent);
    assert fs == [f] + rest;
    OthersKept(f, parent, id, fn);
    EditCons(f, rest, id, fn);
    FourParts(f, rest, parent);
    FourParts(g, UpdateQuery(rest, id, fn), parent);
    BagIs(h, q, d, r);
    BagIs(h, QueryPlaces(g.queries, f.id), Places(g.folders, f.id), Places(UpdateQuery(rest, id, fn), parent));
    UniqueParts(h, q, d, r);
    QueryInParts(h, q, d, r, id);
    if !NoQuery(q, id) {
      o := MapPlaces(f.queries, id, fn, f.id);
      EditMisses(f.folders, id, fn, f.id);
      EditMisses(rest, id, fn, parent);
    } else {
      MapMisses(f.queries, id, fn, f.id);
      if !NoQuery(d, id) {
        o := EditPlaces(f.folders, id, fn, f.id);
        EditMisses(rest, id, fn, parent);
      } else {
        o := EditPlaces(rest, id, fn, parent);
        EditMisses(f.folders, id, fn, f.id);
      }
    }
    QueryIsQuery(o, id);
    SwapPart(h, q, d, r, o, Edited(o, fn));
  }

  // ---------------------------------------------------------------- runs

  /** What a user does to the tree; new entries come with the id that `uid` gives them. */
  datatype Op =
    | NewFolder(parent: string, id: string, name: string)
    | RenameFolder(id: string, name: string)
    | DeleteFolder(id: string)
    | NewQuery(folder: string, query: Query)
    | EditQuery(id: string, name: string, text: string)
    | DeleteQuery(id: string)
    | PlacePipeline(folder: string, pipelineId: string, entry: string)
    | UnplacePipeline(entry: string)
    | QueryTo(id: string, folder: string)
    | PipelineTo(entry: string, folder: string)
    | FolderTo(id: string, parent: string)

  function WithText(name: string, text: string): Query -> Query {
    (q: Query) => q.(name := name, text := text)
  }

  function Apply(fs: seq<Folder>, op: Op): seq<Folder> {
    match op
    case NewFolder(parent, id, name) => AddFolder(fs, parent, EmptyFolder(id, name))
    case RenameFolder(id, name) => UpdateFolder(fs, id, WithName(name))
    case DeleteFolder(id) => RemoveFolder(fs, id)
    case NewQuery(folder, q) => UpdateFolder(fs, folder, WithQuery(q))
    case EditQuery(id, name, text) => UpdateQuery(fs, id, WithText(name, text))
    case DeleteQuery(id) => RemoveQuery(fs, id)
    case PlacePipeline(folder, pipelineId, entry) => AddPipeline(fs, folder, pipelineId, entry)
    case UnplacePipeline(entry) => RemovePipeline(fs, entry)
    case QueryTo(id, folder) => MovedQuery(fs, id, folder)
    case PipelineTo(entry, folder) => MovedPipeline(fs, entry, folder)
    case FolderTo(id, parent) => MovedFolder(fs, id, parent)
  }

  ghost predicate Unused(bag: multiset<Place>, id: string) {
    forall a :: a in bag ==> IdOf(a.item) != id
  }

  /** A new entry has an id of its own. */
  ghost predicate FreshOp(fs: seq<Folder>, op: Op) {
    match op
    case NewFolder(_, id, _) => Unused(Whole(fs), id)
    case NewQuery(_, q) => Unused(Whole(fs), q.id)
    case PlacePipeline(_, _, entry) => Unused(Whole(fs), entry)
    case _ => true
  }

  lemma {:induction false} LessIsGood(a: multiset<Place>, b: multiset<Place>)
    requires Good(b) && a <= b
    ensures Good(a)
  {
    hide Unique, PlacedOnce;
    SubKeeps(a, b);
  }

  lemma {:induction false} FewerCounts(a: multiset<Place>, b: multiset<Place>)
    requires forall x :: a[x] <= b[x]
    ensures a <= b
  {
  }

  lemma {:induction false} OneFolder(id: string, name: string, parent: string)
    ensures Places([EmptyFolder(id, name)], parent) == multiset{Place(parent, AFolder(id, name))}
  {
    PlacesCons(EmptyFolder(id, name), [], parent);
  }

  lemma {:induction false} NewFolderKeeps(fs: seq<Folder>, parent: string, id: string, name: string)
    requires Good(Whole(fs)) && Unused(Whole(fs), id)
    ensures Good(Whole(AddFolder(fs, parent, EmptyFolder(id, name))))
  {
    hide Places, AddFolder, HasFolder, Unique, PlacedOnce;
    AddFolderPlaces(fs, parent, EmptyFolder(id, name));
    OneFolder(id, name, parent);
    AddKeeps(Whole(fs), Place(parent, AFolder(id, name)));
    assert Whole(fs) + multiset{} == Whole(fs);
  }

  lemma {:induction false} RenameKeeps(fs: seq<Folder>, id: string, name: string)
    requires Good(Whole(fs))
    ensures Good(Whole(UpdateFolder(fs, id, WithName(name))))
  {
    hide Places, UpdateFolder, HasFolder, Unique, PlacedOnce, WithName;
    if HasFolder(fs, id) {
      var o, n := RenamePlaces(fs, id, name);
      SwapKeeps(Whole(fs), o, n);
    } else {
      UpdateMisses(fs, id, WithName(name));
    }
  }

  lemma {:induction false} DeleteFolderKeeps(fs: seq<Folder>, id: string)
    requires Good(Whole(fs))
    ensures Good(Whole(RemoveFolder(fs, id)))
  {
    hide Places, RemoveFolder, HasFolder, Unique, PlacedOnce;
    if HasFolder(fs, id) {
      var f, at := RemoveFolderPlaces(fs, "", id);
      LessIsGood(Whole(RemoveFolder(fs, id)), Whole(fs));
    } else {
      RemoveMisses(fs, id);
    }
  }

  lemma {:induction false} NewQueryKeeps(fs: seq<Folder>, folder: string, q: Query)
    requires Good(Whole(fs)) && Unused(Whole(fs), q.id)
    ensures Good(Whole(UpdateFolder(fs, folder, WithQuery(q))))
  {
    hide Places, UpdateFolder, HasFolder, Unique, PlacedOnce, WithQuery;
    AddQueryPlaces(fs, folder, q);
    AddKeeps(Whole(fs), Place(folder, AQuery(q)));
    assert Whole(fs) + multiset{} == Whole(fs);
  }

  lemma {:induction false} EditQueryKeeps(fs: seq<Folder>, id: string, name: string, text: string)
    requires Good(Whole(fs))
    ensures Good(Whole(UpdateQuery(fs, id, WithText(name, text))))
  {
    hide Places, UpdateQuery, Unique, PlacedOnce, NoQuery;
    if NoQuery(Whole(fs), id) {
      EditMisses(fs, id, WithText(name, text), "");
    } else {
      var o := EditPlaces(fs, id, WithText(name, text), "");
      SwapKeeps(Whole(fs), o, Edited(o, WithText(name, text)));
    }
  }

  lemma {:induction false} RemovalsKeep(fs: seq<Folder>, id: string)
    requires Good(Whole(fs))
    ensures Good(Whole(RemoveQuery(fs, id))) && Good(Whole(RemovePipeline(fs, id))) && Good(Whole(RemovePipelineId(fs, id)))
  {
    hide Places, RemoveQuery, RemovePipeline, RemovePipelineId, Good;
    forall x
      ensures Whole(RemoveQuery(fs, id))[x] <= Whole(fs)[x] && Whole(RemovePipeline(fs, id))[x] <= Whole(fs)[x]
      ensures Whole(RemovePipelineId(fs, id))[x] <= Whole(fs)[x]
    {
      RemoveQueryCount(fs, id, "", x);
      RemovePipelineCount(fs, id, "", x);
      RemovePipelineIdCount(fs, id, "", x);
    }
    FewerCounts(Whole(RemoveQuery(fs, id)), Whole(fs));
    FewerCounts(Whole(RemovePipeline(fs, id)), Whole(fs));
    FewerCounts(Whole(RemovePipelineId(fs, id)), Whole(fs));
    LessIsGood(Whole(RemoveQuery(fs, id)), Whole(fs));
    LessIsGood(Whole(RemovePipeline(fs, id)), Whole(fs));
    LessIsGood(Whole(RemovePipelineId(fs, id)), Whole(fs));
  }

  /** Placing a pipeline takes out all its entries and, if and only if the folder exists, puts one there. */
  lemma {:induction false} AddPipelinePlaces(fs: seq<Folder>, folder: string, pipelineId: string, entry: string, x: Place)
    requires Good(Whole(fs)) && Unused(Whole(fs), entry)
    ensures
      var put := Place(folder, APipeline(Pipeline(entry, pipelineId)));
      Whole(AddPipeline(fs, folder, pipelineId, entry))[x]
      == if x == put then (if HasFolder(fs, folder) then 1 else 0) else Kept(PointsTo(x, pipelineId), Whole(fs)[x])
  {
    var without, e := RemovePipelineId(fs, pipelineId), Pipeline(entry, pipelineId);
    hide Places, RemovePipelineId, UpdateFolder, HasFolder, WithPipeline, Unique, PlacedOnce;
    RemovalsKeep(fs, pipelineId);
    FoldersStayWithoutPipeline(fs, pipelineId, folder);
    AddEntryPlaces(without, folder, e);
    RemovePipelineIdCount(fs, pipelineId, "", x);
  }

  lemma {:induction false} PlacePipelineKeeps(fs: seq<Folder>, folder: string, pipelineId: string, entry: string)
    requires Good(Whole(fs)) && Unused(Whole(fs), entry)
    ensures Good(Whole(AddPipeline(fs, folder, pipelineId, entry)))
  {
    var without, e := RemovePipelineId(fs, pipelineId), Pipeline(entry, pipelineId);
    hide Places, RemovePipelineId, UpdateFolder, HasFolder, WithPipeline, Unique, PlacedOnce;
    RemovalsKeep(fs, pipelineId);
    AddEntryPlaces(without, folder, e);
    forall a | a in Whole(without)
      ensures IdOf(a.item) != entry && !SamePipeline(a.item, APipeline(e))
    {
      RemovePipelineIdCount(fs, pipelineId, "", a);
      assert a in Whole(fs);
    }
    AddKeeps(Whole(without), Place(folder, APipeline(e)));
    assert Whole(without) + multiset{} == Whole(without);
  }

  lemma {:induction false} TakenKeeps(bag: multiset<Place>, o: Place)
    requires Good(bag)
    ensures Good(bag - multiset{o} + multiset{})
  {
    hide Good;
    LessIsGood(bag - multiset{o} + multiset{}, bag);
  }

  lemma {:induction false} MovesKeep(fs: seq<Folder>, id: string, target: string)
    requires Good(Whole(fs))
    ensures Good(Whole(MovedQuery(fs, id, target))) && Good(Whole(MovedPipeline(fs, id, target)))
  {
    hide Places, MovedQuery, MovedPipeline, HasFolder, Unique, PlacedOnce, NoQuery, NoEntry;
    var o := MoveQueryPlaces(fs, id, target);
    if o.Some? {
      SwapKeeps(Whole(fs), o.value, Place(target, o.value.item));
      TakenKeeps(Whole(fs), o.value);
    }
    var e := MovePipelinePlaces(fs, id, target);
    if e.Some? {
      SwapKeeps(Whole(fs), e.value, Place(target, e.value.item));
      TakenKeeps(Whole(fs), e.value);
    }
  }

  lemma {:induction false} MoveFolderKeeps(fs: seq<Folder>, id: string, parent: string)
    requires Good(Whole(fs))
    ensures Good(Whole(MovedFolder(fs, id, parent)))
  {
    hide Places, MovedFolder, HasFolder, Unique, PlacedOnce, IntoItself, TargetExists, FindFolder;
    if HasFolder(fs, id) {
      var f, at := MoveFolderPlaces(fs, id, parent);
      SwapKeeps(Whole(fs), FolderPlace(f, at), FolderPlace(f, parent));
      LessIsGood(Whole(fs) - Places([f], at), Whole(fs));
    } else {
      FolderGone(fs, id, parent);
    }
  }

  /** Every edit keeps ids unique and every pipeline placed at most once. */
  lemma {:induction false} EditKeeps(fs: seq<Folder>, op: Op)
    requires Good(Whole(fs)) && FreshOp(fs, op)
    ensures Good(Whole(Apply(fs, op)))
  {
    hide Good, Places, Unused, AddFolder, UpdateFolder, UpdateQuery, RemoveQuery, RemoveFolder, RemovePipeline, AddPipeline,
      MovedQuery, MovedPipeline, MovedFolder, WithName, WithQuery, WithText;
    match op
    case NewFolder(parent, id, name) => NewFolderKeeps(fs, parent, id, name);
    case RenameFolder(id, name) => RenameKeeps(fs, id, name);
    case DeleteFolder(id) => DeleteFolderKeeps(fs, id);
    case NewQuery(folder, q) => NewQueryKeeps(fs, folder, q);
    case EditQuery(id, name, text) => EditQueryKeeps(fs, id, name, text);
    case DeleteQuery(id) => RemovalsKeep(fs, id);
    case PlacePipeline(folder, pipelineId, entry) => PlacePipelineKeeps(fs, folder, pipelineId, entry);
    case UnplacePipeline(entry) => RemovalsKeep(fs, entry);
    case QueryTo(id, folder) => MovesKeep(fs, id, folder);
    case PipelineTo(entry, folder) => MovesKeep(fs, entry, folder);
    case FolderTo(id, parent) => MoveFolderKeeps(fs, id, parent);
  }

  function Run(fs: seq<Folder>, ops: seq<Op>): seq<Folder>
    decreases |ops|
  {
    if ops == [] then fs else Run(Apply(fs, ops[0]), ops[1..])
  }

  ghost predicate FreshRun(fs: seq<Folder>, ops: seq<Op>)
    decreases |ops|
  {
    ops == [] || (FreshOp(fs, ops[0]) && FreshRun(Apply(fs, ops[0]), ops[1..]))
  }

  /** Every run of edits from a good tree, the empty one for example, ends in a good tree. */
  lemma {:induction false} RunKeeps(fs: seq<Folder>, ops: seq<Op>)
    requires Good(Whole(fs)) && FreshRun(fs, ops)
    ensures Good(Whole(Run(fs, ops)))
    decreases |ops|
  {
    hide Good, Apply, FreshOp;
    if ops != [] {
      EditKeeps(fs, ops[0]);
      RunKeeps(Apply(fs, ops[0]), ops[1..]);
    }
  }

  // ---------------------------------------------------------------- a target that does not exist

  /** One folder with one query and one entry. */
  function SmallTree(): seq<Folder> {
    [Folder("f", "F", [], [Query("q", "Q", "")], [Pipeline("e", "p")])]
  }

  lemma {:induction false} ThreeUnique(a: Place, b: Place, c: Place)
    requires IdOf(a.item) != IdOf(b.item) && IdOf(a.item) != IdOf(c.item) && IdOf(b.item) != IdOf(c.item)
    ensures Unique(multiset{a} + multiset{b} + multiset{c})
  {
    hide IdOf;
  }

  lemma {:induction false} SmallTreeIsUnique()
    ensures Unique(Whole(SmallTree())) && !HasFolder(SmallTree(), "x")
  {
    var f := SmallTree()[0];
    assert [f][1..] == [] && f.queries[1..] == [] && f.pipelines[1..] == [];
    var a, b, c := Place("", AFolder("f", "F")), Place("f", AQuery(f.queries[0])), Place("f", APipeline(f.pipelines[0]));
    assert QueryPlaces(f.queries, "f") == multiset{b} && PipelinePlaces(f.pipelines, "f") == multiset{c};
    assert Whole(SmallTree()) == multiset{a} + multiset{b} + multiset{c};
    hide Places, Unique;
    ThreeUnique(a, b, c);
  }

  /** Moved to a folder that does not exist, the query is gone. */
  lemma {:induction false} QueryLostExample()
    ensures MovedQuery(SmallTree(), "q", "x") == [Folder("f", "F", [], [], [Pipeline("e", "p")])]
  {
    var f := SmallTree()[0];
    var q := f.queries[0];
    assert [f][1..] == [] && [q][1..] == [];
    assert LastQuery([f], "q", None) == Some(q);
    assert DropQuery([q], "q") == [] && RemoveQuery([], "q") == [];
    assert RemoveQuery([f], "q") == [f.(queries := [], folders := [])];
    OneMissing(f.(queries := []), WithQuery(q));
  }

  /** So is the entry. */
  lemma {:induction false} EntryLostExample()
    ensures MovedPipeline(SmallTree(), "e", "x") == [Folder("f", "F", [], [Query("q", "Q", "")], [])]
  {
    var f := SmallTree()[0];
    var e := f.pipelines[0];
    assert [f][1..] == [] && [e][1..] == [];
    assert PipelinesIn([e], "e") == [e] && Pulled([], "e") == [];
    assert Pulled([f], "e") == [e];
    assert DropPipeline([e], "e") == [] && RemovePipeline([], "e") == [];
    assert RemovePipeline([f], "e") == [f.(pipelines := [], folders := [])];
    OneMissing(f.(pipelines := []), WithPipeline(e));
  }

  /** And the folder with all it holds. */
  lemma {:induction false} FolderLostExample()
    ensures MovedFolder(SmallTree(), "f", "x") == []
  {
    var f := SmallTree()[0];
    assert [f][1..] == [];
    assert FindFolder([f], "f", None) == Some(f) && LastOnLevel([f], "f", None) == Some(f);
    assert LastBelow([f], "f", Some(f)) == Some(f);
    assert RemoveFolder([f], "f") == [] && UpdateFolder([], "x", WithFolder(f)) == [];
    assert !IntoItself(f, "x");
    MovedFolderIs([f], "f", "x", f);
  }

  lemma {:induction false} OneMissing(f: Folder, fn: Folder -> Folder)
    requires f.id == "f" && f.folders == []
    ensures UpdateFolder([f], "x", fn) == [f]
  {
    assert [f][1..] == [];
    assert f.(folders := []) == f;
  }
}
