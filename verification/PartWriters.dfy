/** The part writers: numbered parts, retries that converge, purges, and the parts of other runs. */
module PartWriters {
  import opened Text
  import opened Batches

  type Row = map<string, string>

  type RowBatch = Batch<Row, int>

  /** `WriteSpec`, as far as paths depend on it; an empty text stands for an absent one. */
  datatype WriteSpec = WriteSpec(pathPrefix: string, table: string, runId: string, format: Format)

  datatype Format = Parquet | Jsonl | Csv

  /** What `serialize` makes of a batch. */
  datatype Payload = Payload(format: Format, rows: seq<Row>, columns: seq<string>)

  datatype WriteError = UnsupportedOperation | WriteFailed(key: string)

  type Objects = map<string, Payload>

  /** How storing a part ends; a failure may leave anything, or nothing, under the name of the part. */
  datatype Outcome = Succeeds | Fails(left: Option<Payload>)

  // ---------------------------------------------------------------- names

  function Extension(f: Format): string {
    match f
    case Parquet => "parquet"
    case Jsonl => "jsonl"
    case Csv => "csv"
  }

  function Zeros(n: nat): string {
    if n == 0 then "" else "0" + Zeros(n - 1)
  }

  /** The format `05d`. */
  function Dec5(n: nat): string {
    if |Dec(n)| < 5 then Zeros(5 - |Dec(n)|) + Dec(n) else Dec(n)
  }

  function PartName(n: nat, f: Format): string {
    "part-" + Dec5(n) + "." + Extension(f)
  }

  function Key(path: string, n: nat, f: Format): string {
    path + "/" + PartName(n, f)
  }

  /** `strip("/")`. */
  function StripSlashes(s: string): string {
    if s != "" && s[0] == '/' then StripSlashes(s[1..])
    else if s != "" && s[|s| - 1] == '/' then StripSlashes(s[..|s| - 1])
    else s
  }

  /** The parts that are not empty, joined by slashes. */
  function JoinPath(parts: seq<string>): string {
    if parts == [] then ""
    else
      var head := JoinPath(parts[..|parts| - 1]);
      var last := parts[|parts| - 1];
      if last == "" then head else if head == "" then last else head + "/" + last
  }

  function RunPart(spec: WriteSpec): string {
    if spec.runId != "" then "run_id=" + spec.runId else ""
  }

  /** `_run_prefix`. */
  function RunPrefix(spec: WriteSpec): string {
    JoinPath([StripSlashes(spec.pathPrefix), spec.table, RunPart(spec)])
  }

  /** `_run_dir`. */
  function RunDir(root: string, base: string, spec: WriteSpec): string {
    JoinPath([root, base, StripSlashes(spec.pathPrefix), spec.table, RunPart(spec)])
  }

  function PayloadOf(b: RowBatch, f: Format): Payload {
    Payload(f, b.rows, b.columns)
  }

  /** What a failed write leaves. */
  function Damaged(objects: Objects, key: string, left: Option<Payload>): Objects {
    if left.Some? then objects[key := left.value] else objects
  }

  // ---------------------------------------------------------------- what an attempt leaves

  /** The store after the batches have been written from part number `n` on; empty batches write nothing. */
  function After(objects: Objects, path: string, f: Format, n: nat, batches: seq<RowBatch>): Objects
    decreases |batches|
  {
    if batches == [] then objects
    else if batches[0].rows == [] then After(objects, path, f, n, batches[1..])
    else After(objects[Key(path, n, f) := PayloadOf(batches[0], f)], path, f, n + 1, batches[1..])
  }

  /** How many parts the batches make. */
  function Parts(batches: seq<RowBatch>): nat {
    if batches == [] then 0 else (if batches[0].rows == [] then 0 else 1) + Parts(batches[1..])
  }

  /** Everything under the path. */
  predicate Under(path: string, key: string) {
    path + "/" <= key
  }

  /** What the pattern `part-*.ext` matches in the directory. */
  predicate IsPart(dir: string, f: Format, key: string) {
    var head, tail := dir + "/part-", "." + Extension(f);
    && head <= key && |head| + |tail| <= |key| && key[|key| - |tail|..] == tail
    && '/' !in key[|head|..]
  }

  /** The store without what lies under the path. */
  function Purged(objects: Objects, path: string): Objects {
    map k | k in objects && !Under(path, k) :: objects[k]
  }

  /** The directory without the parts of one format. */
  function PurgedParts(objects: Objects, dir: string, f: Format): Objects {
    map k | k in objects && !IsPart(dir, f, k) :: objects[k]
  }

  function Without(objects: Objects, keys: set<string>): Objects {
    map k | k in objects && k !in keys :: objects[k]
  }

  /** Some objects under the path are gone, nothing else has changed. */
  predicate PartlyPurged(before: Objects, after: Objects, path: string) {
    && (forall k :: k in after ==> k in before && after[k] == before[k])
    && (forall k :: k in before && !Under(path, k) ==> k in after)
  }

  /** Some parts of the format are gone, nothing else has changed. */
  predicate PartlyRemoved(before: Objects, after: Objects, dir: string, f: Format) {
    && (forall k :: k in after ==> k in before && after[k] == before[k])
    && (forall k :: k in before && !IsPart(dir, f, k) ==> k in after)
  }

  lemma {:induction false} PartlyPurgedIs(objects: Objects, path: string, keys: set<string>)
    requires forall k :: k in keys ==> Under(path, k)
    ensures PartlyPurged(objects, Without(objects, keys), path)
  {
    hide Under;
  }

  lemma {:induction false} PartlyRemovedIs(objects: Objects, dir: string, f: Format, keys: set<string>, child: string)
    requires forall k :: k in keys ==> IsPart(dir, f, k)
    requires child in objects && child !in keys
    ensures PartlyRemoved(objects, Without(objects, keys), dir, f) && child in Without(objects, keys)
  {
    hide IsPart;
  }

  /** A purge that failed halfway is made good by one that does not. */
  lemma {:induction false} PurgeAgain(before: Objects, after: Objects, path: string, f: Format)
    ensures PartlyPurged(before, after, path) ==> Purged(after, path) == Purged(before, path)
    ensures PartlyRemoved(before, after, path, f) ==> PurgedParts(after, path, f) == PurgedParts(before, path, f)
  {
    hide Under, IsPart;
  }

  lemma {:induction false} WithoutSize(objects: Objects, keys: set<string>)
    requires keys <= objects.Keys
    ensures |Without(objects, keys)| == |objects| - |keys|
  {
    assert Without(objects, keys).Keys == objects.Keys - keys;
  }

  lemma {:induction false} WithoutMore(objects: Objects, keys: set<string>, k: string)
    ensures Without(Without(objects, keys), {k}) == Without(objects, keys + {k})
  {
  }

  lemma {:induction false} PurgedIsWithout(objects: Objects, path: string)
    ensures Purged(objects, path) == Without(objects, set k | k in objects && Under(path, k))
  {
    hide Under;
  }

  lemma {:induction false} PurgedPartsIsWithout(objects: Objects, dir: string, f: Format)
    ensures PurgedParts(objects, dir, f) == Without(objects, set k | k in objects && IsPart(dir, f, k))
  {
    hide IsPart;
  }

  class Store {
    var objects: Objects

    constructor (objects: Objects)
      ensures this.objects == objects
    {
      this.objects := objects;
    }
  }

  class S3Connector {
    const spec: WriteSpec
    const store: Store
    var partNo: nat

    constructor (spec: WriteSpec, store: Store)
      ensures this.spec == spec && this.store == store && partNo == 0
    {
      this.spec := spec;
      this.store := store;
      partNo := 0;
    }

    /** `write`: the part number moves on before the object is put, also when the put fails. */
    method Write(batch: RowBatch, upsert: bool, outcome: Outcome) returns (r: Result<nat, WriteError>)
      modifies this`partNo, store`objects
      ensures upsert ==> r == Err(UnsupportedOperation)
      ensures upsert || batch.rows == [] ==> partNo == old(partNo) && store.objects == old(store.objects)
      ensures !upsert && batch.rows == [] ==> r == Ok(0)
      ensures !upsert && batch.rows != [] ==> partNo == old(partNo) + 1
      ensures !upsert && batch.rows != [] && outcome.Fails? ==>
        && r == Err(WriteFailed(Key(RunPrefix(spec), old(partNo), spec.format)))
        && store.objects == Damaged(old(store.objects), Key(RunPrefix(spec), old(partNo), spec.format), outcome.left)
      ensures !upsert && outcome.Succeeds? ==>
        && r == Ok(|batch.rows|)
        && store.objects == After(old(store.objects), RunPrefix(spec), spec.format, old(partNo), [batch])
        && partNo == old(partNo) + Parts([batch])
    {
      if upsert {
        return Err(UnsupportedOperation);
      }
      if batch.rows == [] {
        return Ok(0);
      }
      var key := Key(RunPrefix(spec), partNo, spec.format);
      var payload := PayloadOf(batch, spec.format);
      partNo := partNo + 1;
      if outcome.Fails? {
        store.objects := Damaged(store.objects, key, outcome.left);
        return Err(WriteFailed(key));
      }
      store.objects := store.objects[key := payload];
      return Ok(|batch.rows|);
    }

    /**
     * `purge_run_prefix`. The objects go page by page; when a request fails, some of them are gone (`gone`) and the
     * part number is not reset.
     */
    method PurgeRunPrefix(fails: bool, gone: set<string>) returns (r: Result<nat, WriteError>)
      modifies this`partNo, store`objects
      ensures !fails ==>
        && partNo == 0 && store.objects == Purged(old(store.objects), RunPrefix(spec))
        && r == Ok(|old(store.objects)| - |store.objects|)
      ensures fails ==>
        && partNo == old(partNo) && r == Err(WriteFailed(RunPrefix(spec) + "/"))
        && PartlyPurged(old(store.objects), store.objects, RunPrefix(spec))
    {
      hide Under, Purged, Without, RunPrefix;
      var keys := set k | k in store.objects && Under(RunPrefix(spec), k);
      if fails {
        PartlyPurgedIs(store.objects, RunPrefix(spec), keys * gone);
        store.objects := Without(store.objects, keys * gone);
        return Err(WriteFailed(RunPrefix(spec) + "/"));
      }
      PurgedIsWithout(store.objects, RunPrefix(spec));
      WithoutSize(store.objects, keys);
      store.objects := Without(store.objects, keys);
      partNo := 0;
      r := Ok(|keys|);
    }
  }

  class LocalFileConnector {
    const dir: string
    const format: Format
    const disk: Store
    var partNo: nat

    constructor (root: string, base: string, spec: WriteSpec, disk: Store)
      ensures dir == RunDir(root, base, spec) && format == spec.format && this.disk == disk && partNo == 0
    {
      dir := RunDir(root, base, spec);
      format := spec.format;
      this.disk := disk;
      partNo := 0;
    }

    /** `write`: the part number moves on behind the write, and stays when that fails. */
    method Write(batch: RowBatch, upsert: bool, outcome: Outcome) returns (r: Result<nat, WriteError>)
      modifies this`partNo, disk`objects
      ensures upsert ==> r == Err(UnsupportedOperation)
      ensures upsert || batch.rows == [] ==> partNo == old(partNo) && disk.objects == old(disk.objects)
      ensures !upsert && batch.rows == [] ==> r == Ok(0)
      ensures !upsert && batch.rows != [] && outcome.Fails? ==>
        && r == Err(WriteFailed(Key(dir, old(partNo), format))) && partNo == old(partNo)
        && disk.objects == Damaged(old(disk.objects), Key(dir, old(partNo), format), outcome.left)
      ensures !upsert && outcome.Succeeds? ==>
        && r == Ok(|batch.rows|)
        && disk.objects == After(old(disk.objects), dir, format, old(partNo), [batch])
        && partNo == old(partNo) + Parts([batch])
    {
      if upsert {
        return Err(UnsupportedOperation);
      }
      if batch.rows == [] {
        return Ok(0);
      }
      var path := Key(dir, partNo, format);
      var payload := PayloadOf(batch, format);
      if outcome.Fails? {
        disk.objects := Damaged(disk.objects, path, outcome.left);
        return Err(WriteFailed(path));
      }
      disk.objects := disk.objects[path := payload];
      partNo := partNo + 1;
      return Ok(|batch.rows|);
    }

    /**
     * `purge_run_prefix`: the parts of the current format, one file after the other, up to one that cannot be removed
     * (`stuck`); the part number is reset first.
     */
    method PurgeRunPrefix(stuck: set<string>) returns (r: Result<nat, WriteError>)
      modifies this`partNo, disk`objects
      ensures partNo == 0
      ensures r.Ok? <==> forall k :: k in old(disk.objects) && IsPart(dir, format, k) ==> k !in stuck
      ensures r.Ok? ==>
        && disk.objects == PurgedParts(old(disk.objects), dir, format)
        && r.value == |old(disk.objects)| - |disk.objects|
      ensures r.Err? ==>
        && r.error.WriteFailed? && r.error.key in stuck && r.error.key in disk.objects
        && PartlyRemoved(old(disk.objects), disk.objects, dir, format)
    {
      hide IsPart, PurgedParts, Without;
      partNo := 0;
      var children := set k | k in disk.objects && IsPart(dir, format, k);
      ghost var all := children;
      PurgedPartsIsWithout(disk.objects, dir, format);
      WithoutSize(disk.objects, all);
      WithoutNone(disk.objects);
      assert all - children == {};
      var removed := 0;
      while children != {}
        invariant children <= all
        invariant disk.objects == Without(old(disk.objects), all - children)
        invariant removed == |all| - |children|
        invariant partNo == 0
        invariant forall k :: k in all - children ==> k !in stuck
        decreases |children|
      {
        var child :| child in children;
        if child in stuck {
          PartlyRemovedIs(old(disk.objects), dir, format, all - children, child);
          return Err(WriteFailed(child));
        }
        WithoutMore(old(disk.objects), all - children, child);
        assert all - children + {child} == all - (children - {child});
        disk.objects := Without(disk.objects, {child});
        children := children - {child};
        removed := removed + 1;
      }
      assert all - children == all;
      r := Ok(removed);
    }
  }

  lemma {:induction false} WithoutNone(objects: Objects)
    ensures Without(objects, {}) == objects
  {
  }

  // ---------------------------------------------------------------- attempts

  lemma {:induction false} AfterStep(objects: Objects, path: string, f: Format, n: nat, batches: seq<RowBatch>, b: RowBatch)
    ensures After(objects, path, f, n, batches + [b]) == After(After(objects, path, f, n, batches), path, f, n + Parts(batches), [b])
    ensures Parts(batches + [b]) == Parts(batches) + Parts([b])
    decreases |batches|
  {
    hide Key;
    if batches == [] {
      assert [] + [b] == [b];
    } else {
      assert (batches + [b])[1..] == batches[1..] + [b];
      if batches[0].rows == [] {
        AfterStep(objects, path, f, n, batches[1..], b);
      } else {
        AfterStep(objects[Key(path, n, f) := PayloadOf(batches[0], f)], path, f, n + 1, batches[1..], b);
      }
    }
  }

  /** A load writes batch after batch and stops at the first write that fails; `left` is what that write leaves. */
  method AttemptS3(c: S3Connector, batches: seq<RowBatch>, failAt: nat, left: Option<Payload>) returns (written: nat)
    modifies c`partNo, c.store`objects
    ensures written <= |batches| && (failAt >= |batches| ==> written == |batches|)
    ensures
      var path, f, n := RunPrefix(c.spec), c.spec.format, old(c.partNo);
      var kept := After(old(c.store.objects), path, f, n, batches[..written]);
      || c.store.objects == kept
      || (written < |batches| && batches[written].rows != []
          && c.store.objects == Damaged(kept, Key(path, n + Parts(batches[..written]), f), left))
  {
    hide After, Parts, Key, RunPrefix, Damaged;
    written := 0;
    StartAfter(c.store.objects, RunPrefix(c.spec), c.spec.format, c.partNo);
    while written < |batches|
      invariant written <= |batches|
      invariant
        c.store.objects
        == After(old(c.store.objects), RunPrefix(c.spec), c.spec.format, old(c.partNo), batches[..written])
      invariant c.partNo == old(c.partNo) + Parts(batches[..written])
    {
      AfterStep(old(c.store.objects), RunPrefix(c.spec), c.spec.format, old(c.partNo), batches[..written], batches[written]);
      assert batches[..written + 1] == batches[..written] + [batches[written]];
      var r := c.Write(batches[written], false, if written == failAt then Fails(left) else Succeeds);
      if r.Err? {
        return;
      }
      if written == failAt {
        NothingAfter(old(c.store.objects), RunPrefix(c.spec), c.spec.format, old(c.partNo), batches[..written], batches[written]);
      }
      written := written + 1;
    }
  }

  lemma {:induction false} StartAfter(objects: Objects, path: string, f: Format, n: nat)
    ensures After(objects, path, f, n, []) == objects && Parts([]) == 0
  {
  }

  lemma {:induction false} NothingAfter(objects: Objects, path: string, f: Format, n: nat, batches: seq<RowBatch>, b: RowBatch)
    ensures b.rows == [] ==>
      After(objects, path, f, n, batches + [b]) == After(objects, path, f, n, batches) && Parts(batches + [b]) == Parts(batches)
  {
    AfterStep(objects, path, f, n, batches, b);
  }

  /** The same for local files. */
  method AttemptLocal(c: LocalFileConnector, batches: seq<RowBatch>, failAt: nat, left: Option<Payload>) returns (written: nat)
    modifies c`partNo, c.disk`objects
    ensures written <= |batches| && (failAt >= |batches| ==> written == |batches|)
    ensures
      var kept := After(old(c.disk.objects), c.dir, c.format, old(c.partNo), batches[..written]);
      || c.disk.objects == kept
      || (written < |batches| && batches[written].rows != []
          && c.disk.objects == Damaged(kept, Key(c.dir, old(c.partNo) + Parts(batches[..written]), c.format), left))
  {
    hide After, Parts, Key, RunDir, Damaged;
    written := 0;
    StartAfter(c.disk.objects, c.dir, c.format, c.partNo);
    while written < |batches|
      invariant written <= |batches|
      invariant c.disk.objects == After(old(c.disk.objects), c.dir, c.format, old(c.partNo), batches[..written])
      invariant c.partNo == old(c.partNo) + Parts(batches[..written])
    {
      AfterStep(old(c.disk.objects), c.dir, c.format, old(c.partNo), batches[..written], batches[written]);
      assert batches[..written + 1] == batches[..written] + [batches[written]];
      var r := c.Write(batches[written], false, if written == failAt then Fails(left) else Succeeds);
      if r.Err? {
        return;
      }
      if written == failAt {
        NothingAfter(old(c.disk.objects), c.dir, c.format, old(c.partNo), batches[..written], batches[written]);
      }
      written := written + 1;
    }
  }

  // ---------------------------------------------------------------- part names never collide

  predicate AllDigits(s: string) {
    forall k :: 0 <= k < |s| ==> IsDigit(s[k])
  }

  lemma {:induction false} ZerosFirst(n: nat)
    ensures |Zeros(n)| == n && AllDigits(Zeros(n))
  {
    if n > 0 {
      ZerosFirst(n - 1);
    }
  }

  lemma {:induction false} ZerosCountNothing(n: nat, s: string)
    requires AllDigits(s)
    ensures AllDigits(Zeros(n) + s) && ParseDec(Zeros(n) + s) == ParseDec(s)
  {
    ZerosFirst(n);
    if s == "" {
      assert Zeros(n) + "" == Zeros(n);
      OnlyZeros(n);
    } else {
      var t := s[..|s| - 1];
      ZerosCountNothing(n, t);
      assert (Zeros(n) + s)[..|Zeros(n) + s| - 1] == Zeros(n) + t;
    }
  }

  lemma {:induction false} OnlyZeros(n: nat)
    ensures AllDigits(Zeros(n)) && ParseDec(Zeros(n)) == 0
  {
    ZerosFirst(n);
    if n > 0 {
      OnlyZeros(n - 1);
      ZeroBehind(n - 1);
      assert (Zeros(n - 1) + "0")[..n - 1] == Zeros(n - 1);
    }
  }

  lemma {:induction false} ZeroBehind(n: nat)
    ensures Zeros(n + 1) == Zeros(n) + "0" && |Zeros(n)| == n
  {
    if n > 0 {
      ZeroBehind(n - 1);
      assert "0" + (Zeros(n - 1) + "0") == "0" + Zeros(n - 1) + "0";
    } else {
      assert "0" + "" == "" + "0";
    }
  }

  lemma {:induction false} Dec5Value(n: nat)
    ensures AllDigits(Dec5(n)) && ParseDec(Dec5(n)) == n
  {
    ParseDecOfDec(n);
    assert AllDigits(Dec(n));
    if |Dec(n)| < 5 {
      ZerosCountNothing(5 - |Dec(n)|, Dec(n));
    }
  }

  lemma {:induction false} KeyShape(path: string, n: nat, f: Format)
    ensures Key(path, n, f) == path + "/part-" + Dec5(n) + ("." + Extension(f))
  {
    hide Dec5, Extension;
    var x, z := Dec5(n), "." + Extension(f);
    assert "/part-" == "/" + "part-";
    assert PartName(n, f) == "part-" + x + z;
    assert path + "/" + ("part-" + x + z) == path + ("/" + "part-") + x + z;
  }

  /** Two part numbers never give the same name, also beyond five digits. */
  lemma {:induction false} KeysDistinct(path: string, m: nat, n: nat, f: Format)
    requires m != n
    ensures Key(path, m, f) != Key(path, n, f)
  {
    Dec5Value(m);
    Dec5Value(n);
    KeyShape(path, m, f);
    KeyShape(path, n, f);
    hide Key, Dec5, Extension, ParseDec, AllDigits;
    SameMiddle(path + "/part-", Dec5(m), Dec5(n), "." + Extension(f));
  }

  lemma {:induction false} SameMiddle(a: string, x: string, y: string, z: string)
    ensures a + x + z == a + y + z ==> x == y
  {
    if a + x + z == a + y + z {
      assert |x| == |y|;
      assert x == (a + x + z)[|a|..|a| + |x|];
      assert y == (a + y + z)[|a|..|a| + |y|];
    }
  }

  lemma {:induction false} Middle(a: string, x: string, z: string)
    ensures
      var k := a + x + z;
      a <= k && |a| + |z| <= |k| && k[|k| - |z|..] == z && k[|a|..] == x + z
  {
  }

  lemma {:induction false} PlainName(n: nat, f: Format)
    ensures '/' !in Dec5(n) + ("." + Extension(f))
  {
    Dec5Value(n);
    assert forall j :: 0 <= j < |Dec5(n)| ==> IsDigit(Dec5(n)[j]);
    assert '/' !in "." + Extension(f);
    hide Dec5, Extension;
  }

  /** Every key of a run lies under its path and matches its pattern. */
  lemma {:induction false} KeyIsPart(path: string, n: nat, f: Format)
    ensures Under(path, Key(path, n, f)) && IsPart(path, f, Key(path, n, f))
  {
    KeyShape(path, n, f);
    PlainName(n, f);
    Middle(path + "/part-", Dec5(n), "." + Extension(f));
    hide Dec5, Extension;
    assert path + "/" <= path + "/part-" by {
      assert path + "/part-" == path + "/" + "part-";
    }
  }

  // ---------------------------------------------------------------- the content of a run

  /** The batches that hold rows. */
  function NotEmpty(batches: seq<RowBatch>): seq<RowBatch> {
    if batches == [] then []
    else (if batches[0].rows == [] then [] else [batches[0]]) + NotEmpty(batches[1..])
  }

  lemma {:induction false} PartsAre(batches: seq<RowBatch>)
    ensures |NotEmpty(batches)| == Parts(batches)
  {
    if batches != [] {
      PartsAre(batches[1..]);
    }
  }

  /** `key` is one of `count` part names from number `n` on. */
  ghost predicate Numbered(path: string, f: Format, n: nat, count: nat, key: string) {
    exists i: nat :: n <= i < n + count && key == Key(path, i, f)
  }

  predicate SameAt(s: Objects, t: Objects, key: string) {
    (key in s <==> key in t) && (key in s ==> s[key] == t[key])
  }

  /** An object that is not one of the parts is what it was. */
  lemma {:induction false} AfterElsewhere(objects: Objects, path: string, f: Format, n: nat, batches: seq<RowBatch>, key: string)
    requires !Numbered(path, f, n, Parts(batches), key)
    ensures SameAt(After(objects, path, f, n, batches), objects, key)
    decreases |batches|
  {
    hide Key, Numbered;
    if batches != [] {
      if batches[0].rows == [] {
        AfterElsewhere(objects, path, f, n, batches[1..], key);
      } else {
        WiderNumbered(path, f, n, Parts(batches[1..]), key);
        AfterElsewhere(objects[Key(path, n, f) := PayloadOf(batches[0], f)], path, f, n + 1, batches[1..], key);
      }
    }
  }

  /** Part `i` holds the `i`-th batch with rows. */
  lemma {:induction false} AfterPart(objects: Objects, path: string, f: Format, n: nat, batches: seq<RowBatch>, i: nat)
    requires i < |NotEmpty(batches)|
    ensures
      var after := After(objects, path, f, n, batches);
      && Key(path, n + i, f) in after
      && after[Key(path, n + i, f)] == Payload(f, NotEmpty(batches)[i].rows, NotEmpty(batches)[i].columns)
    decreases |batches|
  {
    hide Key, Numbered;
    if batches[0].rows == [] {
      AfterPart(objects, path, f, n, batches[1..], i);
    } else {
      var next := objects[Key(path, n, f) := PayloadOf(batches[0], f)];
      if i > 0 {
        AfterPart(next, path, f, n + 1, batches[1..], i - 1);
        assert n + 1 + (i - 1) == n + i;
      } else {
        NotNumbered(path, f, n, Parts(batches[1..]));
        AfterElsewhere(next, path, f, n + 1, batches[1..], Key(path, n, f));
      }
    }
  }

  lemma {:induction false} NotNumbered(path: string, f: Format, n: nat, count: nat)
    ensures !Numbered(path, f, n + 1, count, Key(path, n, f))
  {
    hide Key;
    forall i: nat | n + 1 <= i < n + 1 + count ensures Key(path, n, f) != Key(path, i, f) {
      KeysDistinct(path, n, i, f);
    }
  }

  lemma {:induction false} WiderNumbered(path: string, f: Format, n: nat, count: nat, key: string)
    requires !Numbered(path, f, n, 1 + count, key)
    ensures !Numbered(path, f, n + 1, count, key) && key != Key(path, n, f)
  {
    hide Key;
  }

  // ---------------------------------------------------------------- retries

  /** Stores that differ only in parts that are written anyway end up the same. */
  lemma {:induction false} Overwritten(s: Objects, t: Objects, path: string, f: Format, n: nat, batches: seq<RowBatch>)
    requires forall key :: !Numbered(path, f, n, Parts(batches), key) ==> SameAt(s, t, key)
    ensures After(s, path, f, n, batches) == After(t, path, f, n, batches)
  {
    hide Key, After, SameAt, Numbered;
    forall key ensures SameAt(After(s, path, f, n, batches), After(t, path, f, n, batches), key) {
      OverwrittenAt(s, t, path, f, n, batches, key);
    }
    SameEverywhere(After(s, path, f, n, batches), After(t, path, f, n, batches));
  }

  lemma {:induction false} SameEverywhere(s: Objects, t: Objects)
    requires forall key :: SameAt(s, t, key)
    ensures s == t
  {
    forall key | key in s ensures key in t && s[key] == t[key] {
      assert SameAt(s, t, key);
    }
    forall key | key in t ensures key in s {
      assert SameAt(s, t, key);
    }
  }

  lemma {:induction false} OverwrittenAt(
    s: Objects, t: Objects, path: string, f: Format, n: nat, batches: seq<RowBatch>, key: string)
    requires !Numbered(path, f, n, Parts(batches), key) ==> SameAt(s, t, key)
    ensures SameAt(After(s, path, f, n, batches), After(t, path, f, n, batches), key)
  {
    hide Key, After;
    if Numbered(path, f, n, Parts(batches), key) {
      var i: nat :| n <= i < n + Parts(batches) && key == Key(path, i, f);
      PartsAre(batches);
      assert n + (i - n) == i;
      AfterPart(s, path, f, n, batches, i - n);
      AfterPart(t, path, f, n, batches, i - n);
    } else {
      AfterElsewhere(s, path, f, n, batches, key);
      AfterElsewhere(t, path, f, n, batches, key);
    }
  }

  lemma {:induction false} PartsOfPrefix(batches: seq<RowBatch>, k: nat)
    requires k <= |batches|
    ensures Parts(batches[..k]) <= Parts(batches)
    ensures k < |batches| && batches[k].rows != [] ==> Parts(batches[..k]) < Parts(batches)
  {
    if k > 0 {
      assert batches[..k][1..] == batches[1..][..k - 1];
      PartsOfPrefix(batches[1..], k - 1);
    }
  }

  /**
   * Whatever prefix of the batches an attempt wrote, and whatever a failing write left under the next name: a full
   * attempt by a new connector leaves the store that one clean attempt leaves.
   */
  lemma {:induction false} RetryConverges(
    objects: Objects, path: string, f: Format, batches: seq<RowBatch>, k: nat, left: Option<Payload>)
    requires k <= |batches| && (left.Some? ==> k < |batches| && batches[k].rows != [])
    ensures
      var kept := After(objects, path, f, 0, batches[..k]);
      After(Damaged(kept, Key(path, Parts(batches[..k]), f), left), path, f, 0, batches) == After(objects, path, f, 0, batches)
  {
    var kept := After(objects, path, f, 0, batches[..k]);
    var m := Parts(batches[..k]);
    var found := Damaged(kept, Key(path, m, f), left);
    hide Key, After, Numbered;
    PartsOfPrefix(batches, k);
    forall key | !Numbered(path, f, 0, Parts(batches), key) ensures SameAt(found, objects, key) {
      FewerNumbered(path, f, m, Parts(batches), key);
      AfterElsewhere(objects, path, f, 0, batches[..k], key);
    }
    Overwritten(found, objects, path, f, 0, batches);
  }

  lemma {:induction false} FewerNumbered(path: string, f: Format, m: nat, n: nat, key: string)
    requires m <= n && !Numbered(path, f, 0, n, key)
    ensures !Numbered(path, f, 0, m, key) && (m < n ==> key != Key(path, m, f))
  {
    hide Key;
  }

  /** S3: a failed attempt and a full one by a new connector. */
  method RetryS3(spec: WriteSpec, store: Store, batches: seq<RowBatch>, failAt: nat, left: Option<Payload>)
    modifies store`objects
    ensures store.objects == After(old(store.objects), RunPrefix(spec), spec.format, 0, batches)
  {
    hide After, Parts, Key, RunPrefix, Damaged;
    var first := new S3Connector(spec, store);
    var written := AttemptS3(first, batches, failAt, left);
    var second := new S3Connector(spec, store);
    var all := AttemptS3(second, batches, |batches|, None);
    assert batches[..|batches|] == batches;
    RetryKept(old(store.objects), RunPrefix(spec), spec.format, batches, written);
    if written < |batches| && batches[written].rows != [] {
      RetryConverges(old(store.objects), RunPrefix(spec), spec.format, batches, written, left);
    }
  }

  lemma {:induction false} RetryKept(objects: Objects, path: string, f: Format, batches: seq<RowBatch>, k: nat)
    requires k <= |batches|
    ensures After(After(objects, path, f, 0, batches[..k]), path, f, 0, batches) == After(objects, path, f, 0, batches)
  {
    hide Key, After;
    RetryConverges(objects, path, f, batches, k, None);
  }

  /** Local files: the same. */
  method RetryLocal(
    root: string, base: string, spec: WriteSpec, disk: Store, batches: seq<RowBatch>, failAt: nat, left: Option<Payload>)
    modifies disk`objects
    ensures disk.objects == After(old(disk.objects), RunDir(root, base, spec), spec.format, 0, batches)
  {
    hide After, Parts, Key, RunDir, Damaged;
    var first := new LocalFileConnector(root, base, spec, disk);
    var written := AttemptLocal(first, batches, failAt, left);
    var second := new LocalFileConnector(root, base, spec, disk);
    var all := AttemptLocal(second, batches, |batches|, None);
    assert batches[..|batches|] == batches;
    RetryKept(old(disk.objects), RunDir(root, base, spec), spec.format, batches, written);
    if written < |batches| && batches[written].rows != [] {
      RetryConverges(old(disk.objects), RunDir(root, base, spec), spec.format, batches, written, left);
    }
  }

  // ---------------------------------------------------------------- going on after a failure

  /** The numbers of the parts that are stored when every batch is tried; `moves`: a failure uses up its number. */
  function Numbers(moves: bool, n: nat, batches: seq<RowBatch>, outcomes: seq<Outcome>): seq<nat>
    requires |outcomes| == |batches|
    decreases |batches|
  {
    if batches == [] then []
    else if batches[0].rows == [] then Numbers(moves, n, batches[1..], outcomes[1..])
    else if outcomes[0].Succeeds? then [n] + Numbers(moves, n + 1, batches[1..], outcomes[1..])
    else Numbers(moves, if moves then n + 1 else n, batches[1..], outcomes[1..])
  }

  /** The next number behind all of them. */
  function NextNumber(moves: bool, n: nat, batches: seq<RowBatch>, outcomes: seq<Outcome>): nat
    requires |outcomes| == |batches|
    decreases |batches|
  {
    if batches == [] then n
    else
      var used := batches[0].rows != [] && (moves || outcomes[0].Succeeds?);
      NextNumber(moves, if used then n + 1 else n, batches[1..], outcomes[1..])
  }

  /** What one write leaves. */
  function Wrote(objects: Objects, path: string, f: Format, n: nat, b: RowBatch, o: Outcome): Objects {
    if b.rows == [] then objects
    else if o.Succeeds? then objects[Key(path, n, f) := PayloadOf(b, f)]
    else Damaged(objects, Key(path, n, f), o.left)
  }

  /** The store when every batch is tried. */
  function Tried(moves: bool, objects: Objects, path: string, f: Format, n: nat, batches: seq<RowBatch>, outcomes: seq<Outcome>): Objects
    requires |outcomes| == |batches|
    decreases |batches|
  {
    if batches == [] then objects
    else
      var used := batches[0].rows != [] && (moves || outcomes[0].Succeeds?);
      Tried(moves, Wrote(objects, path, f, n, batches[0], outcomes[0]), path, f, if used then n + 1 else n, batches[1..], outcomes[1..])
  }

  lemma {:induction false} Behind<T>(xs: seq<T>, x: T)
    requires xs != []
    ensures (xs + [x])[1..] == xs[1..] + [x] && (xs + [x])[0] == xs[0] && xs + [x] != []
  {
  }

  /** One batch more at the end: the numbers. */
  lemma {:induction false} NumbersStep(
    moves: bool, n: nat, batches: seq<RowBatch>, outcomes: seq<Outcome>, b: RowBatch, o: Outcome)
    requires |outcomes| == |batches|
    ensures
      var m := NextNumber(moves, n, batches, outcomes);
      && Numbers(moves, n, batches + [b], outcomes + [o])
         == Numbers(moves, n, batches, outcomes) + (if b.rows != [] && o.Succeeds? then [m] else [])
      && NextNumber(moves, n, batches + [b], outcomes + [o])
         == (if b.rows != [] && (moves || o.Succeeds?) then m + 1 else m)
    decreases |batches|
  {
    if batches == [] {
      assert [] + [b] == [b] && [] + [o] == [o] && [b][1..] == [] && [o][1..] == [];
    } else {
      Behind(batches, b);
      Behind(outcomes, o);
      var used := batches[0].rows != [] && (moves || outcomes[0].Succeeds?);
      NumbersStep(moves, if used then n + 1 else n, batches[1..], outcomes[1..], b, o);
    }
  }

  /** One batch more at the end: the store. */
  lemma {:induction false} TriedStep(
    moves: bool, objects: Objects, path: string, f: Format, n: nat, batches: seq<RowBatch>, outcomes: seq<Outcome>,
    b: RowBatch, o: Outcome)
    requires |outcomes| == |batches|
    ensures
      Tried(moves, objects, path, f, n, batches + [b], outcomes + [o])
      == Wrote(Tried(moves, objects, path, f, n, batches, outcomes), path, f, NextNumber(moves, n, batches, outcomes), b, o)
    decreases |batches|
  {
    hide Wrote;
    if batches == [] {
      assert [] + [b] == [b] && [] + [o] == [o] && [b][1..] == [] && [o][1..] == [];
    } else {
      Behind(batches, b);
      Behind(outcomes, o);
      var used := batches[0].rows != [] && (moves || outcomes[0].Succeeds?);
      var next := if used then n + 1 else n;
      TriedStep(moves, Wrote(objects, path, f, n, batches[0], outcomes[0]), path, f, next, batches[1..], outcomes[1..], b, o);
    }
  }

  lemma {:induction false} NothingTried(moves: bool, objects: Objects, path: string, f: Format, n: nat)
    ensures Numbers(moves, n, [], []) == [] && NextNumber(moves, n, [], []) == n
    ensures Tried(moves, objects, path, f, n, [], []) == objects
  {
  }

  lemma {:induction false} WroteIsAfter(objects: Objects, path: string, f: Format, n: nat, b: RowBatch)
    ensures Wrote(objects, path, f, n, b, Succeeds) == After(objects, path, f, n, [b])
    ensures Parts([b]) == if b.rows == [] then 0 else 1
  {
    hide Key;
    assert [b][1..] == [];
  }

  /** An S3 connector that tries every batch, whatever becomes of the ones before. */
  method WriteEveryS3(c: S3Connector, batches: seq<RowBatch>, outcomes: seq<Outcome>) returns (numbers: seq<nat>)
    requires |outcomes| == |batches|
    modifies c`partNo, c.store`objects
    ensures numbers == Numbers(true, old(c.partNo), batches, outcomes)
    ensures
      c.store.objects == Tried(true, old(c.store.objects), RunPrefix(c.spec), c.spec.format, old(c.partNo), batches, outcomes)
  {
    hide Numbers, NextNumber, Tried, RunPrefix, Key, After, Parts;
    ghost var path, f, n := RunPrefix(c.spec), c.spec.format, c.partNo;
    numbers := [];
    NothingTried(true, c.store.objects, path, f, n);
    for k := 0 to |batches|
      invariant numbers == Numbers(true, n, batches[..k], outcomes[..k])
      invariant c.partNo == NextNumber(true, n, batches[..k], outcomes[..k])
      invariant c.store.objects == Tried(true, old(c.store.objects), path, f, n, batches[..k], outcomes[..k])
    {
      NumbersStep(true, n, batches[..k], outcomes[..k], batches[k], outcomes[k]);
      TriedStep(true, old(c.store.objects), path, f, n, batches[..k], outcomes[..k], batches[k], outcomes[k]);
      assert batches[..k + 1] == batches[..k] + [batches[k]] && outcomes[..k + 1] == outcomes[..k] + [outcomes[k]];
      WroteIsAfter(c.store.objects, path, f, c.partNo, batches[k]);
      var no := c.partNo;
      var r := c.Write(batches[k], false, outcomes[k]);
      if batches[k].rows != [] && r.Ok? {
        numbers := numbers + [no];
      }
    }
    assert batches[..|batches|] == batches && outcomes[..|batches|] == outcomes;
  }

  /** A local file connector that does the same. */
  method WriteEveryLocal(c: LocalFileConnector, batches: seq<RowBatch>, outcomes: seq<Outcome>) returns (numbers: seq<nat>)
    requires |outcomes| == |batches|
    modifies c`partNo, c.disk`objects
    ensures numbers == Numbers(false, old(c.partNo), batches, outcomes)
    ensures c.disk.objects == Tried(false, old(c.disk.objects), c.dir, c.format, old(c.partNo), batches, outcomes)
  {
    hide Numbers, NextNumber, Tried, Key, After, Parts;
    ghost var n := c.partNo;
    numbers := [];
    NothingTried(false, c.disk.objects, c.dir, c.format, n);
    for k := 0 to |batches|
      invariant numbers == Numbers(false, n, batches[..k], outcomes[..k])
      invariant c.partNo == NextNumber(false, n, batches[..k], outcomes[..k])
      invariant c.disk.objects == Tried(false, old(c.disk.objects), c.dir, c.format, n, batches[..k], outcomes[..k])
    {
      NumbersStep(false, n, batches[..k], outcomes[..k], batches[k], outcomes[k]);
      TriedStep(false, old(c.disk.objects), c.dir, c.format, n, batches[..k], outcomes[..k], batches[k], outcomes[k]);
      assert batches[..k + 1] == batches[..k] + [batches[k]] && outcomes[..k + 1] == outcomes[..k] + [outcomes[k]];
      WroteIsAfter(c.disk.objects, c.dir, c.format, c.partNo, batches[k]);
      var no := c.partNo;
      var r := c.Write(batches[k], false, outcomes[k]);
      if batches[k].rows != [] && r.Ok? {
        numbers := numbers + [no];
      }
    }
    assert batches[..|batches|] == batches && outcomes[..|batches|] == outcomes;
  }

  /** The numbers `n, n + 1, ...` without a gap. */
  predicate Contiguous(numbers: seq<nat>, n: nat) {
    forall k :: 0 <= k < |numbers| ==> numbers[k] == n + k
  }

  predicate Stored(b: RowBatch, o: Outcome) {
    b.rows != [] && o.Succeeds?
  }

  predicate Lost(b: RowBatch, o: Outcome) {
    b.rows != [] && o.Fails?
  }

  /** A batch with rows whose write fails comes before one whose write succeeds. */
  predicate LostBeforeStored(batches: seq<RowBatch>, outcomes: seq<Outcome>)
    requires |outcomes| == |batches|
  {
    exists i, j :: 0 <= i < j < |batches| && Lost(batches[i], outcomes[i]) && Stored(batches[j], outcomes[j])
  }

  predicate SomeStored(batches: seq<RowBatch>, outcomes: seq<Outcome>)
    requires |outcomes| == |batches|
  {
    exists j :: 0 <= j < |batches| && Stored(batches[j], outcomes[j])
  }

  lemma {:induction false} NumbersBound(n: nat, batches: seq<RowBatch>, outcomes: seq<Outcome>)
    requires |outcomes| == |batches|
    ensures forall k :: 0 <= k < |Numbers(true, n, batches, outcomes)| ==> n <= Numbers(true, n, batches, outcomes)[k]
    ensures Numbers(true, n, batches, outcomes) != [] <==> SomeStored(batches, outcomes)
    decreases |batches|
  {
    if batches != [] {
      SplitStored(batches, outcomes);
      if batches[0].rows == [] {
        NumbersBound(n, batches[1..], outcomes[1..]);
      } else {
        NumbersBound(n + 1, batches[1..], outcomes[1..]);
      }
    }
  }

  lemma {:induction false} SplitStored(batches: seq<RowBatch>, outcomes: seq<Outcome>)
    requires |outcomes| == |batches| > 0
    ensures
      SomeStored(batches, outcomes)
      <==> Stored(batches[0], outcomes[0]) || SomeStored(batches[1..], outcomes[1..])
    ensures
      LostBeforeStored(batches, outcomes)
      <==> (Lost(batches[0], outcomes[0]) && SomeStored(batches[1..], outcomes[1..]))
           || LostBeforeStored(batches[1..], outcomes[1..])
  {
    hide Stored, Lost;
    var bs, os := batches[1..], outcomes[1..];
    if SomeStored(bs, os) {
      var j :| 0 <= j < |bs| && Stored(bs[j], os[j]);
      assert Stored(batches[j + 1], outcomes[j + 1]);
    }
    if LostBeforeStored(bs, os) {
      var i, j :| 0 <= i < j < |bs| && Lost(bs[i], os[i]) && Stored(bs[j], os[j]);
      assert Lost(batches[i + 1], outcomes[i + 1]) && Stored(batches[j + 1], outcomes[j + 1]);
    }
    if LostBeforeStored(batches, outcomes) {
      var i, j :| 0 <= i < j < |batches| && Lost(batches[i], outcomes[i]) && Stored(batches[j], outcomes[j]);
      assert Stored(bs[j - 1], os[j - 1]);
      if i > 0 {
        assert Lost(bs[i - 1], os[i - 1]);
      }
    }
  }

  lemma {:induction false} ContiguousCons(n: nat, numbers: seq<nat>)
    ensures Contiguous([n] + numbers, n) <==> Contiguous(numbers, n + 1)
  {
    var all := [n] + numbers;
    if Contiguous(all, n) {
      forall k | 0 <= k < |numbers| ensures numbers[k] == n + 1 + k {
        assert all[k + 1] == n + (k + 1);
      }
    }
  }

  /** A connector whose failures use up a number leaves one out exactly when a failure comes before a success. */
  lemma {:induction false} GapExactlyAfterLoss(n: nat, batches: seq<RowBatch>, outcomes: seq<Outcome>)
    requires |outcomes| == |batches|
    ensures Contiguous(Numbers(true, n, batches, outcomes), n) <==> !LostBeforeStored(batches, outcomes)
    decreases |batches|
  {
    if batches != [] {
      var bs, os := batches[1..], outcomes[1..];
      SplitStored(batches, outcomes);
      hide LostBeforeStored, SomeStored;
      if batches[0].rows == [] {
        GapExactlyAfterLoss(n, bs, os);
      } else if outcomes[0].Succeeds? {
        GapExactlyAfterLoss(n + 1, bs, os);
        ContiguousCons(n, Numbers(true, n + 1, bs, os));
      } else {
        GapExactlyAfterLoss(n + 1, bs, os);
        NumbersBound(n + 1, bs, os);
        LostNeedsStored(bs, os);
      }
    }
  }

  lemma {:induction false} LostNeedsStored(batches: seq<RowBatch>, outcomes: seq<Outcome>)
    requires |outcomes| == |batches|
    ensures LostBeforeStored(batches, outcomes) ==> SomeStored(batches, outcomes)
  {
    hide Stored, Lost;
  }

  /** A connector whose failures keep the number never leaves one out. */
  lemma {:induction false} NoGapWhenNumberStays(n: nat, batches: seq<RowBatch>, outcomes: seq<Outcome>)
    requires |outcomes| == |batches|
    ensures Contiguous(Numbers(false, n, batches, outcomes), n)
    decreases |batches|
  {
    if batches != [] {
      var bs, os := batches[1..], outcomes[1..];
      if batches[0].rows != [] && outcomes[0].Succeeds? {
        NoGapWhenNumberStays(n + 1, bs, os);
        ContiguousCons(n, Numbers(false, n + 1, bs, os));
      } else {
        NoGapWhenNumberStays(n, bs, os);
      }
    }
  }

  /** Two batches with rows, the first write fails: the one connector stores part 1 only, the other part 0. */
  lemma {:induction false} GapExample(b: RowBatch)
    requires b.rows != []
    ensures Numbers(true, 0, [b, b], [Fails(None), Succeeds]) == [1]
    ensures Numbers(false, 0, [b, b], [Fails(None), Succeeds]) == [0]
  {
    var os := [Fails(None), Succeeds];
    assert [b, b][1..] == [b] && os[1..] == [Succeeds];
    assert [b][1..] == [] && [Succeeds][1..] == [];
    assert Numbers(true, 2, [], []) == [] && Numbers(false, 1, [], []) == [];
    assert Numbers(true, 1, [b], [Succeeds]) == [1] && Numbers(false, 0, [b], [Succeeds]) == [0];
    assert os[0].Fails?;
  }

  /** The number that a lost batch has used up stays without a part when its write left nothing. */
  lemma {:induction false} LostPartMissing(
    objects: Objects, path: string, f: Format, n: nat, batches: seq<RowBatch>, outcomes: seq<Outcome>, i: nat)
    requires |outcomes| == |batches| && i < |batches| && batches[i].rows != [] && outcomes[i] == Fails(None)
    requires Key(path, NextNumber(true, n, batches[..i], outcomes[..i]), f) !in objects
    ensures
      Key(path, NextNumber(true, n, batches[..i], outcomes[..i]), f) !in Tried(true, objects, path, f, n, batches, outcomes)
    decreases |batches|
  {
    hide Key;
    var bs, os := batches[1..], outcomes[1..];
    var m := NextNumber(true, n, batches[..i], outcomes[..i]);
    if i == 0 {
      NotTriedBelow(objects, path, f, n + 1, bs, os, n);
    } else {
      assert batches[..i][1..] == bs[..i - 1] && outcomes[..i][1..] == os[..i - 1];
      var next := if batches[0].rows == [] then n else n + 1;
      NextNumberBound(next, bs[..i - 1], os[..i - 1]);
      if batches[0].rows != [] {
        KeysDistinct(path, n, m, f);
      }
      LostPartMissing(Wrote(objects, path, f, n, batches[0], outcomes[0]), path, f, next, bs, os, i - 1);
    }
  }

  lemma {:induction false} NextNumberBound(n: nat, batches: seq<RowBatch>, outcomes: seq<Outcome>)
    requires |outcomes| == |batches|
    ensures n <= NextNumber(true, n, batches, outcomes)
    decreases |batches|
  {
    if batches != [] {
      NextNumberBound(if batches[0].rows == [] then n else n + 1, batches[1..], outcomes[1..]);
    }
  }

  lemma {:induction false} NotTriedBelow(
    objects: Objects, path: string, f: Format, n: nat, batches: seq<RowBatch>, outcomes: seq<Outcome>, m: nat)
    requires |outcomes| == |batches| && m < n && Key(path, m, f) !in objects
    ensures Key(path, m, f) !in Tried(true, objects, path, f, n, batches, outcomes)
    decreases |batches|
  {
    hide Key;
    if batches != [] {
      KeysDistinct(path, m, n, f);
      var next := if batches[0].rows == [] then n else n + 1;
      NotTriedBelow(Wrote(objects, path, f, n, batches[0], outcomes[0]), path, f, next, batches[1..], outcomes[1..], m);
    }
  }

  // ---------------------------------------------------------------- purging

  lemma {:induction false} NumberedIsPart(path: string, f: Format, n: nat, count: nat, key: string)
    ensures Numbered(path, f, n, count, key) ==> Under(path, key) && IsPart(path, f, key)
  {
    hide Key, Under, IsPart;
    if Numbered(path, f, n, count, key) {
      var i: nat :| n <= i < n + count && key == Key(path, i, f);
      KeyIsPart(path, i, f);
    }
  }

  lemma {:induction false} NumberedHolds(objects: Objects, path: string, f: Format, batches: seq<RowBatch>, key: string)
    ensures Numbered(path, f, 0, Parts(batches), key) ==> key in After(objects, path, f, 0, batches)
  {
    hide Key, After;
    if Numbered(path, f, 0, Parts(batches), key) {
      var i: nat :| i < Parts(batches) && key == Key(path, i, f);
      PartsAre(batches);
      assert 0 + i == i;
      AfterPart(objects, path, f, 0, batches, i);
    }
  }

  /** After a purge and an attempt the run holds exactly the parts of this attempt; nothing else has changed. */
  lemma {:induction false} PurgedRunIsExact(objects: Objects, path: string, f: Format, batches: seq<RowBatch>, key: string)
    ensures
      var after := After(Purged(objects, path), path, f, 0, batches);
      && (Under(path, key) ==> (key in after <==> Numbered(path, f, 0, Parts(batches), key)))
      && (!Under(path, key) ==> SameAt(after, objects, key))
  {
    hide Key, After, Under, Numbered;
    NumberedIsPart(path, f, 0, Parts(batches), key);
    NumberedHolds(Purged(objects, path), path, f, batches, key);
    if !Numbered(path, f, 0, Parts(batches), key) {
      AfterElsewhere(Purged(objects, path), path, f, 0, batches, key);
    }
  }

  /** For local files: the parts of the current format are exactly those of this attempt. */
  lemma {:induction false} PurgedDirIsExact(objects: Objects, dir: string, f: Format, batches: seq<RowBatch>, key: string)
    ensures
      var after := After(PurgedParts(objects, dir, f), dir, f, 0, batches);
      && (IsPart(dir, f, key) ==> (key in after <==> Numbered(dir, f, 0, Parts(batches), key)))
      && (!IsPart(dir, f, key) ==> SameAt(after, objects, key))
  {
    hide Key, After, IsPart, Numbered;
    NumberedIsPart(dir, f, 0, Parts(batches), key);
    NumberedHolds(PurgedParts(objects, dir, f), dir, f, batches, key);
    if !Numbered(dir, f, 0, Parts(batches), key) {
      AfterElsewhere(PurgedParts(objects, dir, f), dir, f, 0, batches, key);
    }
  }

  // ---------------------------------------------------------------- other runs

  /** Two runs of one load: the same prefix and table, different run ids without slashes. */
  predicate OtherRun(a: WriteSpec, b: WriteSpec) {
    && a.pathPrefix == b.pathPrefix && a.table == b.table && a.runId != b.runId
    && a.runId != "" && b.runId != "" && '/' !in a.runId && '/' !in b.runId
  }

  /** The path above the run directory. */
  function Parent(parts: seq<string>): string {
    if JoinPath(parts) == "" then "" else JoinPath(parts) + "/"
  }

  lemma {:induction false} PathOfRun(parts: seq<string>, run: string)
    requires run != ""
    ensures JoinPath(parts + [run]) == Parent(parts) + run
  {
    assert (parts + [run])[..|parts + [run]| - 1] == parts;
  }

  lemma {:induction false} SlashFree(a: string, b: string, rest: string)
    requires '/' !in a && '/' !in b
    ensures a + "/" <= b + ("/" + rest) ==> a == b
  {
    var u, v := a + "/", b + ("/" + rest);
    assert a != "" ==> u[0] == a[0] && a[0] in a;
    assert b != "" ==> v[0] == b[0] && b[0] in b;
    if a != "" && b != "" && a[0] == b[0] {
      SlashFree(a[1..], b[1..], rest);
      assert u == [a[0]] + (a[1..] + "/") && v == [a[0]] + (b[1..] + ("/" + rest));
      CancelPrefix([a[0]], a[1..] + "/", b[1..] + ("/" + rest));
    }
  }

  lemma {:induction false} CancelPrefix(p: string, u: string, v: string)
    ensures p + u <= p + v ==> u <= v
  {
    if p + u <= p + v {
      assert forall k :: 0 <= k < |u| ==> u[k] == (p + u)[|p| + k] == (p + v)[|p| + k] == v[k];
    }
  }

  lemma {:induction false} DifferentRuns(parent: string, a: string, b: string, rest: string)
    requires a != b && '/' !in a && '/' !in b
    ensures !(parent + a + "/" <= parent + b + ("/" + rest))
  {
    SlashFree(a, b, rest);
    CancelPrefix(parent, a + "/", b + ("/" + rest));
    assert parent + a + "/" == parent + (a + "/") && parent + b + ("/" + rest) == parent + (b + ("/" + rest));
  }

  /** No key of one run lies under the path of another: neither purge nor write touches it. */
  lemma {:induction false} RunsApart(parts: seq<string>, a: string, b: string, n: nat, f: Format)
    requires a != "" && b != "" && a != b && '/' !in a && '/' !in b
    ensures
      var pa, pb := JoinPath(parts + ["run_id=" + a]), JoinPath(parts + ["run_id=" + b]);
      !Under(pa, Key(pb, n, f))
  {
    var pa, pb := "run_id=" + a, "run_id=" + b;
    assert a == pa[7..] && b == pb[7..];
    assert '/' !in "run_id=";
    hide JoinPath, PartName;
    PathOfRun(parts, pa);
    PathOfRun(parts, pb);
    DifferentRuns(Parent(parts), pa, pb, PartName(n, f));
    assert Parent(parts) + pb + "/" + PartName(n, f) == Parent(parts) + pb + ("/" + PartName(n, f));
  }

  /** Purging or writing one run leaves every part of the other run as it is, in the bucket and on disk. */
  lemma {:induction false} OtherRunUntouched(a: WriteSpec, b: WriteSpec, root: string, base: string, n: nat, f: Format)
    requires OtherRun(a, b)
    ensures !Under(RunPrefix(a), Key(RunPrefix(b), n, f))
    ensures !Under(RunDir(root, base, a), Key(RunDir(root, base, b), n, f))
  {
    var above, aboveDir := [StripSlashes(a.pathPrefix), a.table], [root, base, StripSlashes(a.pathPrefix), a.table];
    assert above + [RunPart(a)] == [StripSlashes(a.pathPrefix), a.table, RunPart(a)];
    assert above + [RunPart(b)] == [StripSlashes(b.pathPrefix), b.table, RunPart(b)];
    assert aboveDir + [RunPart(a)] == [root, base, StripSlashes(a.pathPrefix), a.table, RunPart(a)];
    assert aboveDir + [RunPart(b)] == [root, base, StripSlashes(b.pathPrefix), b.table, RunPart(b)];
    hide JoinPath, Key, Under, StripSlashes;
    RunsApart(above, a.runId, b.runId, n, f);
    RunsApart(aboveDir, a.runId, b.runId, n, f);
  }
}
