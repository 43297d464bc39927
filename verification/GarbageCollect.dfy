/** Manifests in a storage backend, and the mark-and-sweep collection of the chunks none of them refers to. */
module GarbageCollect {
  import opened Bytes
  import opened Options
  import opened Numbers

  /** A chunk in a manifest; the hash is in hexadecimal. */
  datatype ChunkRef = ChunkRef(
    hash: string, key: string, offset: nat, size: nat, storedSize: nat, compression: string, encryption: string, keyId: Bytes)

  datatype Manifest = Manifest(backupId: string, objects: seq<seq<ChunkRef>>)

  /** The signed JSON form of manifests; parse also checks the signature. */
  datatype Json = Json(encode: Manifest -> Bytes, parse: Bytes -> Option<Manifest>)

  /** The largest manifest that is read back, in bytes; a larger one can be written. */
  const MAX_MANIFEST: nat := 64 * 1024 * 1024

  function LoadManifest(json: Json, data: Bytes): Option<Manifest> {
    if |data| > MAX_MANIFEST then None else json.parse(data)
  }

  const DATA := "data/"
  const MANIFESTS := "manifests/"

  // ---- the backend ----

  /** One page of a listing; next holds the keys passed so far when there is more to come. */
  datatype Page = Page(keys: seq<string>, next: Option<set<string>>)

  /** The keys passed after the first i keys of a page. */
  function Pass(passed: set<string>, keys: seq<string>, i: nat): set<string>
    requires i <= |keys|
  {
    if i == 0 then passed else Pass(passed, keys, i - 1) + {keys[i - 1]}
  }

  lemma {:induction false} PassMembers(passed: set<string>, keys: seq<string>, i: nat, x: string)
    requires i <= |keys|
    ensures x in Pass(passed, keys, i) <==> x in passed || x in keys[..i]
    decreases i
  {
    if i > 0 {
      PassMembers(passed, keys, i - 1, x);
      assert keys[..i] == keys[..i - 1] + [keys[i - 1]];
    }
  }

  lemma {:induction false} PassPrefix(passed: set<string>, a: seq<string>, b: seq<string>, i: nat)
    requires i <= |a|
    ensures Pass(passed, a + b, i) == Pass(passed, a, i)
  {
    if i > 0 {
      PassPrefix(passed, a, b, i - 1);
    }
  }

  ghost predicate FreshKeys(objects: map<string, Bytes>, prefix: string, passed: set<string>, keys: seq<string>) {
    && (forall i | 0 <= i < |keys| :: keys[i] in objects && prefix <= keys[i] && keys[i] !in passed)
    && forall i, j | 0 <= i < j < |keys| :: keys[i] != keys[j]
  }

  lemma FreshKey(objects: map<string, Bytes>, prefix: string, passed: set<string>, keys: seq<string>, i: nat)
    requires FreshKeys(objects, prefix, passed, keys) && i < |keys|
    ensures keys[i] !in Pass(passed, keys, i)
  {
    PassMembers(passed, keys, i, keys[i]);
  }

  /** A listing page reports present keys that were not passed before, and the last one leaves none out. */
  ghost predicate PageOk(objects: map<string, Bytes>, prefix: string, passed: set<string>, page: Page) {
    && FreshKeys(objects, prefix, passed, page.keys)
    && (page.next.Some? ==> |page.keys| > 0 && page.next.value == Pass(passed, page.keys, |page.keys|))
    && (page.next.None? ==> forall k | k in objects && prefix <= k :: k in Pass(passed, page.keys, |page.keys|))
  }

  class Backend {
    var objects: map<string, Bytes>

    /** No call fails. */
    const reliable: bool

    constructor (objects: map<string, Bytes>, reliable: bool)
      ensures this.objects == objects && this.reliable == reliable
    {
      this.objects, this.reliable := objects, reliable;
    }

    /** Any page that is in order, or an error. */
    method List(prefix: string, passed: set<string>) returns (r: Option<Page>)
      ensures r.Some? ==> PageOk(objects, prefix, passed, r.value)
      ensures reliable ==> r.Some?
    {
      var broken :| reliable ==> !broken;
      if broken {
        return None;
      }
      var todo := set k | k in objects && prefix <= k && k !in passed;
      var keys: seq<string>, next := [], passed;
      var more: bool :| true;
      while todo != {} && (|keys| == 0 || more)
        invariant FreshKeys(objects, prefix, passed, keys) && next == Pass(passed, keys, |keys|)
        invariant forall k | k in todo :: k in objects && prefix <= k && k !in passed && k !in keys
        invariant forall k | k in objects && prefix <= k :: k in next || k in todo
        decreases |todo|
      {
        var k :| k in todo;
        PassPrefix(passed, keys, [k], |keys|);
        todo, keys, next := todo - {k}, keys + [k], next + {k};
        more :| true;
      }
      return Some(Page(keys, if todo == {} then None else Some(next)));
    }

    method Get(key: string) returns (r: Option<Bytes>)
      ensures r.Some? ==> key in objects && r.value == objects[key]
      ensures reliable && key in objects ==> r.Some?
    {
      var broken :| reliable ==> !broken;
      return if broken || key !in objects then None else Some(objects[key]);
    }

    method Delete(key: string) returns (ok: bool)
      modifies this
      ensures objects == if ok then old(objects) - {key} else old(objects)
      ensures reliable ==> ok
    {
      ok :| reliable ==> ok;
      if ok {
        objects := objects - {key};
      }
    }
  }

  /** The keys of the objects below a prefix. */
  ghost function KeysUnder(objects: map<string, Bytes>, prefix: string): set<string> {
    set k | k in objects && prefix <= k
  }

  lemma {:induction false} PassSize(objects: map<string, Bytes>, prefix: string, passed: set<string>, keys: seq<string>, i: nat)
    requires FreshKeys(objects, prefix, passed, keys) && i <= |keys|
    ensures |Pass(passed, keys, i)| == |passed| + i
  {
    if i > 0 {
      PassSize(objects, prefix, passed, keys, i - 1);
      FreshKey(objects, prefix, passed, keys, i - 1);
    }
  }

  /** Passing the keys of a page stays below the prefix, and the last page leaves none out. */
  lemma PagePassed(objects: map<string, Bytes>, prefix: string, passed: set<string>, page: Page)
    requires PageOk(objects, prefix, passed, page) && passed <= KeysUnder(objects, prefix)
    ensures Pass(passed, page.keys, |page.keys|) <= KeysUnder(objects, prefix)
    ensures page.next.None? ==> Pass(passed, page.keys, |page.keys|) == KeysUnder(objects, prefix)
  {
    forall x | x in Pass(passed, page.keys, |page.keys|)
      ensures x in KeysUnder(objects, prefix)
    {
      PassMembers(passed, page.keys, |page.keys|, x);
      assert x in page.keys[..|page.keys|] ==> x in page.keys;
    }
  }

  /** The bytes in a backend. */
  ghost function Weight(objects: map<string, Bytes>): nat
    decreases |objects|
  {
    if objects == map[] then 0
    else
      var k :| k in objects;
      |objects[k]| + Weight(objects - {k})
  }

  lemma Removed(objects: map<string, Bytes>, k: string)
    requires k in objects
    ensures |objects - {k}| == |objects| - 1
  {
    assert (objects - {k}).Keys == objects.Keys - {k};
  }

  /** Whichever object goes, the rest weighs less by its size. */
  lemma {:induction false} WeightLess(objects: map<string, Bytes>, k: string)
    requires k in objects
    ensures Weight(objects) == |objects[k]| + Weight(objects - {k})
    decreases |objects|
  {
    var j :| j in objects && Weight(objects) == |objects[j]| + Weight(objects - {j});
    if j != k {
      Removed(objects, j);
      WeightLess(objects - {j}, k);
      Removed(objects, k);
      WeightLess(objects - {k}, j);
      assert objects - {j} - {k} == objects - {k} - {j};
    }
  }

  // ---- mark ----

  function KeysOf(refs: seq<ChunkRef>): (r: set<string>)
    ensures "" !in r
  {
    if |refs| == 0 then {} else (if refs[0].key == "" then {} else {refs[0].key}) + KeysOf(refs[1..])
  }

  function ManifestKeys(objects: seq<seq<ChunkRef>>): (r: set<string>)
    ensures "" !in r
  {
    if |objects| == 0 then {} else KeysOf(objects[0]) + ManifestKeys(objects[1..])
  }

  /** A stored manifest refers to the key. */
  ghost predicate Referenced(json: Json, objects: map<string, Bytes>, key: string) {
    exists mk: string :: RefersTo(json, objects, mk, key)
  }

  ghost predicate RefersTo(json: Json, objects: map<string, Bytes>, mk: string, key: string) {
    mk in objects && MANIFESTS <= mk && json.parse(objects[mk]).Some? && key in ManifestKeys(json.parse(objects[mk]).value.objects)
  }

  ghost predicate Loads(json: Json, objects: map<string, Bytes>, mk: string) {
    mk in objects && LoadManifest(json, objects[mk]).Some?
  }

  /** Every stored manifest can be read back. */
  ghost predicate AllLoad(json: Json, objects: map<string, Bytes>) {
    forall mk | mk in objects && MANIFESTS <= mk :: Loads(json, objects, mk)
  }

  ghost predicate TheseLoad(json: Json, objects: map<string, Bytes>, seen: set<string>) {
    forall mk | mk in seen :: Loads(json, objects, mk)
  }

  /** marked has the keys the manifests in seen refer to. */
  ghost predicate Marks(json: Json, objects: map<string, Bytes>, seen: set<string>, marked: set<string>) {
    forall key: string {:trigger key in marked} :: key in marked <==> exists mk: string :: mk in seen && RefersTo(json, objects, mk, key)
  }

  lemma MarksNext(json: Json, objects: map<string, Bytes>, seen: set<string>, marked: set<string>, mk: string)
    requires Marks(json, objects, seen, marked) && mk in objects && MANIFESTS <= mk && json.parse(objects[mk]).Some?
    ensures Marks(json, objects, seen + {mk}, marked + ManifestKeys(json.parse(objects[mk]).value.objects))
  {
    var keys := ManifestKeys(json.parse(objects[mk]).value.objects);
    forall key: string
      ensures key in marked + keys <==> exists m: string :: m in seen + {mk} && RefersTo(json, objects, m, key)
    {
      if key in keys {
        assert mk in seen + {mk} && RefersTo(json, objects, mk, key);
      }
      if key in marked {
        var m: string :| m in seen && RefersTo(json, objects, m, key);
        assert m in seen + {mk} && RefersTo(json, objects, m, key);
      }
    }
  }

  /** Add the keys of one object, counting the new ones. */
  method MarkRefs(refs: seq<ChunkRef>, marked: set<string>) returns (after: set<string>, added: nat)
    ensures after == marked + KeysOf(refs) && added == |after| - |marked|
  {
    after, added := marked, 0;
    var j := 0;
    assert refs[0..] == refs;
    while j < |refs|
      invariant j <= |refs| && after + KeysOf(refs[j..]) == marked + KeysOf(refs)
      invariant marked <= after && added == |after| - |marked|
    {
      assert refs[j..][1..] == refs[j + 1..];
      var key := refs[j].key;
      if key != "" && key !in after {
        after, added := after + {key}, added + 1;
      }
      j := j + 1;
    }
  }

  /** Add the keys of one manifest, counting the new ones. */
  method MarkManifest(m: Manifest, marked: set<string>) returns (after: set<string>, added: nat)
    ensures after == marked + ManifestKeys(m.objects) && added == |after| - |marked|
  {
    after, added := marked, 0;
    var i := 0;
    while i < |m.objects|
      invariant i <= |m.objects|
      invariant after + ManifestKeys(m.objects[i..]) == marked + ManifestKeys(m.objects)
      invariant added == |after| - |marked|
    {
      assert m.objects[i..][1..] == m.objects[i + 1..];
      var more;
      after, more := MarkRefs(m.objects[i], after);
      added, i := added + more, i + 1;
    }
  }

  /** Read one manifest. */
  method MarkKey(backend: Backend, json: Json, key: string, before: set<string>, ghost seen: set<string>)
    returns (r: Option<set<string>>, added: nat, ghost seen': set<string>)
    requires key in backend.objects && MANIFESTS <= key && Marks(json, backend.objects, seen, before) && TheseLoad(json, backend.objects, seen)
    ensures seen' == seen + {key}
    ensures r.Some? ==> Marks(json, backend.objects, seen', r.value) && added == |r.value| - |before|
    ensures r.Some? ==> TheseLoad(json, backend.objects, seen')
    ensures r.None? && backend.reliable ==> !AllLoad(json, backend.objects)
  {
    seen', added := seen + {key}, 0;
    var data := backend.Get(key);
    if data.None? {
      return None, 0, seen';
    }
    var m := LoadManifest(json, data.value);
    if m.None? {
      assert !Loads(json, backend.objects, key);
      return None, 0, seen';
    }
    MarksNext(json, backend.objects, seen, before, key);
    var marked;
    marked, added := MarkManifest(m.value, before);
    r := Some(marked);
  }

  /** Read the manifests of one listing page. */
  method MarkPage(backend: Backend, json: Json, keys: seq<string>, before: set<string>, ghost passed: set<string>)
    returns (r: Option<set<string>>, added: nat)
    requires FreshKeys(backend.objects, MANIFESTS, passed, keys) && Marks(json, backend.objects, passed, before)
    requires TheseLoad(json, backend.objects, passed)
    ensures r.Some? ==> Marks(json, backend.objects, Pass(passed, keys, |keys|), r.value) && added == |r.value| - |before|
    ensures r.Some? ==> TheseLoad(json, backend.objects, Pass(passed, keys, |keys|))
    ensures r.None? && backend.reliable ==> !AllLoad(json, backend.objects)
  {
    r, added := Some(before), 0;
    ghost var seen := passed;
    var i := 0;
    while i < |keys|
      invariant i <= |keys| && seen == Pass(passed, keys, i)
      invariant r.Some? && Marks(json, backend.objects, seen, r.value) && added == |r.value| - |before|
      invariant TheseLoad(json, backend.objects, seen)
    {
      var more;
      r, more, seen := MarkKey(backend, json, keys[i], r.value, seen);
      if r.None? {
        return;
      }
      added, i := added + more, i + 1;
    }
  }

  /** The keys all stored manifests refer to; None when a manifest cannot be listed, read or checked. */
  method Mark(backend: Backend, json: Json) returns (r: Option<set<string>>, manifests: nat, referenced: nat)
    ensures r.Some? ==> forall key: string :: key in r.value <==> Referenced(json, backend.objects, key)
    ensures r.Some? ==> referenced == |r.value| && manifests == |KeysUnder(backend.objects, MANIFESTS)|
    ensures r.Some? ==> AllLoad(json, backend.objects)
    ensures r.None? && backend.reliable ==> !AllLoad(json, backend.objects)
  {
    var passed: set<string>, marked: set<string> := {}, {};
    manifests, referenced := 0, 0;
    ghost var all := KeysUnder(backend.objects, MANIFESTS);
    while true
      invariant Marks(json, backend.objects, passed, marked) && referenced == |marked| && TheseLoad(json, backend.objects, passed)
      invariant passed <= all && manifests == |passed|
      decreases |all - passed|
    {
      var page := backend.List(MANIFESTS, passed);
      if page.None? {
        return None, manifests, referenced;
      }
      var keys := page.value.keys;
      var now, added := MarkPage(backend, json, keys, marked, passed);
      if now.None? {
        return None, manifests, referenced;
      }
      PassSize(backend.objects, MANIFESTS, passed, keys, |keys|);
      PagePassed(backend.objects, MANIFESTS, passed, page.value);
      marked, manifests, referenced := now.value, manifests + |keys|, referenced + added;
      if page.value.next.None? {
        MarkedAll(json, backend.objects, Pass(passed, keys, |keys|), marked);
        return Some(marked), manifests, referenced;
      }
      Shrinks(all, passed, keys);
      passed := page.value.next.value;
    }
  }

  lemma Shrinks(all: set<string>, passed: set<string>, keys: seq<string>)
    requires |keys| > 0 && keys[0] in all && keys[0] !in passed
    ensures |all - Pass(passed, keys, |keys|)| < |all - passed|
  {
    var before, after := all - passed, all - Pass(passed, keys, |keys|);
    forall x | x in after
      ensures x in before - {keys[0]}
    {
      PassMembers(passed, keys, |keys|, x);
      assert keys[0] in keys[..|keys|];
    }
    SubsetSize(after, before - {keys[0]});
  }

  /** Once every manifest was seen, the marks are complete. */
  lemma MarkedAll(json: Json, objects: map<string, Bytes>, seen: set<string>, marked: set<string>)
    requires Marks(json, objects, seen, marked) && forall k | k in objects && MANIFESTS <= k :: k in seen
    ensures forall key: string :: key in marked <==> Referenced(json, objects, key)
  {
    forall key: string
      ensures key in marked <==> Referenced(json, objects, key)
    {
      if Referenced(json, objects, key) {
        var mk: string :| RefersTo(json, objects, mk, key);
        assert mk in seen && RefersTo(json, objects, mk, key);
      }
    }
  }

  // ---- sweep ----

  /** Only unmarked chunks are gone, and nothing else has changed. */
  ghost predicate Swept(marked: set<string>, before: map<string, Bytes>, after: map<string, Bytes>) {
    && (forall k | k in after :: k in before && after[k] == before[k])
    && forall k | k in before && k !in after :: DATA <= k && k !in marked
  }

  /** Every chunk passed so far is marked or gone, unless this is a dry run. */
  ghost predicate Clean(marked: set<string>, passed: set<string>, dryRun: bool, objects: map<string, Bytes>) {
    !dryRun ==> forall k | k in objects && k in passed :: k in marked
  }

  datatype Report = Report(manifests: nat, referenced: nat, scanned: nat, deleted: nat, deletedBytes: nat, orphans: set<string>)

  /** The orphans passed so far, all of them counted as deleted unless this is a dry run. */
  ghost predicate Reports(report: Report, marked: set<string>, passed: set<string>, dryRun: bool) {
    && report.orphans == passed - marked && report.scanned == |passed|
    && report.deleted == if dryRun then 0 else |report.orphans|
  }

  /** What was deleted and what is left are what there was. */
  ghost predicate Conserves(report: Report, origin: map<string, Bytes>, objects: map<string, Bytes>) {
    report.deletedBytes + Weight(objects) == Weight(origin)
  }

  ghost predicate Harmless(marked: set<string>, dryRun: bool, origin: map<string, Bytes>, objects: map<string, Bytes>) {
    Swept(marked, origin, objects) && (dryRun ==> objects == origin)
  }

  /** A sweep of what was in the backend at first, after passing some of the chunks. */
  ghost predicate Sweeping(marked: set<string>, dryRun: bool, origin: map<string, Bytes>, passed: set<string>, objects: map<string, Bytes>, report: Report) {
    && Harmless(marked, dryRun, origin, objects)
    && (forall k | k in origin && k !in objects :: k in passed)
    && Clean(marked, passed, dryRun, objects) && Reports(report, marked, passed, dryRun) && Conserves(report, origin, objects)
  }

  method SweepKey(backend: Backend, marked: set<string>, key: string, dryRun: bool, report: Report, ghost origin: map<string, Bytes>, ghost passed: set<string>)
    returns (ok: bool, after: Report)
    requires Sweeping(marked, dryRun, origin, passed, backend.objects, report) && key in origin && DATA <= key && key !in passed
    modifies backend
    ensures Harmless(marked, dryRun, origin, backend.objects) && (backend.reliable ==> ok)
    ensures ok ==> Sweeping(marked, dryRun, origin, passed + {key}, backend.objects, after)
  {
    after := report.(scanned := report.scanned + 1);
    if key in marked {
      return true, after;
    }
    after := after.(orphans := after.orphans + {key});
    if dryRun {
      return true, after;
    }
    var size := |backend.objects[key]|;
    WeightLess(backend.objects, key);
    ok := backend.Delete(key);
    if ok {
      after := after.(deleted := after.deleted + 1, deletedBytes := after.deletedBytes + size);
    }
  }

  /** Key i of a page. */
  method SweepNext(backend: Backend, marked: set<string>, keys: seq<string>, i: nat, dryRun: bool, report: Report, ghost origin: map<string, Bytes>, ghost passed: set<string>, ghost now: set<string>)
    returns (ok: bool, after: Report, ghost now': set<string>)
    requires i < |keys| && now == Pass(passed, keys, i) && FreshKeys(origin, DATA, passed, keys)
    requires Sweeping(marked, dryRun, origin, now, backend.objects, report)
    modifies backend
    ensures Harmless(marked, dryRun, origin, backend.objects) && (backend.reliable ==> ok)
    ensures ok ==> now' == Pass(passed, keys, i + 1) && Sweeping(marked, dryRun, origin, now', backend.objects, after)
  {
    FreshKey(origin, DATA, passed, keys, i);
    ok, after := SweepKey(backend, marked, keys[i], dryRun, report, origin, now);
    now' := now + {keys[i]};
  }

  method SweepPage(backend: Backend, marked: set<string>, keys: seq<string>, dryRun: bool, report: Report, ghost origin: map<string, Bytes>, ghost passed: set<string>)
    returns (ok: bool, after: Report)
    requires Sweeping(marked, dryRun, origin, passed, backend.objects, report) && FreshKeys(origin, DATA, passed, keys)
    modifies backend
    ensures Harmless(marked, dryRun, origin, backend.objects) && (backend.reliable ==> ok)
    ensures ok ==> Sweeping(marked, dryRun, origin, Pass(passed, keys, |keys|), backend.objects, after)
  {
    ok, after := true, report;
    ghost var now := passed;
    var i := 0;
    while ok && i < |keys|
      invariant i <= |keys| && Harmless(marked, dryRun, origin, backend.objects) && (backend.reliable ==> ok)
      invariant ok ==> now == Pass(passed, keys, i) && Sweeping(marked, dryRun, origin, now, backend.objects, after)
    {
      ok, after, now := SweepNext(backend, marked, keys, i, dryRun, after, origin, passed, now);
      i := i + 1;
    }
  }

  /** The keys of a page were there at first, and passing them stays within the chunks. */
  lemma PageOfOrigin(origin: map<string, Bytes>, objects: map<string, Bytes>, passed: set<string>, page: Page)
    requires PageOk(objects, DATA, passed, page) && (forall k | k in objects :: k in origin) && passed <= KeysUnder(origin, DATA)
    ensures FreshKeys(origin, DATA, passed, page.keys) && Pass(passed, page.keys, |page.keys|) <= KeysUnder(origin, DATA)
  {
    forall x | x in Pass(passed, page.keys, |page.keys|)
      ensures x in KeysUnder(origin, DATA)
    {
      PassMembers(passed, page.keys, |page.keys|, x);
      assert x in page.keys[..|page.keys|] ==> x in page.keys;
    }
  }

  /** The last page leaves out no chunk that was there at first. */
  lemma LastPage(marked: set<string>, dryRun: bool, origin: map<string, Bytes>, objects: map<string, Bytes>, passed: set<string>, page: Page, report: Report)
    requires Sweeping(marked, dryRun, origin, passed, objects, report) && PageOk(objects, DATA, passed, page) && page.next.None?
    requires Pass(passed, page.keys, |page.keys|) <= KeysUnder(origin, DATA)
    ensures Pass(passed, page.keys, |page.keys|) == KeysUnder(origin, DATA)
  {
    forall x | x in KeysUnder(origin, DATA)
      ensures x in Pass(passed, page.keys, |page.keys|)
    {
      PassMembers(passed, page.keys, |page.keys|, x);
    }
  }

  /** Delete every chunk that is not marked; an error may leave some of them. */
  method Sweep(backend: Backend, marked: set<string>, dryRun: bool) returns (ok: bool, report: Report)
    modifies backend
    ensures Harmless(marked, dryRun, old(backend.objects), backend.objects) && (backend.reliable ==> ok)
    ensures ok ==> Sweeping(marked, dryRun, old(backend.objects), KeysUnder(old(backend.objects), DATA), backend.objects, report)
  {
    var passed: set<string> := {};
    ghost var origin := backend.objects;
    report := Report(0, 0, 0, 0, 0, {});
    while true
      invariant Sweeping(marked, dryRun, origin, passed, backend.objects, report) && passed <= KeysUnder(origin, DATA)
      decreases |KeysUnder(origin, DATA) - passed|
    {
      var page := backend.List(DATA, passed);
      if page.None? {
        return false, report;
      }
      var keys := page.value.keys;
      PageOfOrigin(origin, backend.objects, passed, page.value);
      if page.value.next.None? {
        LastPage(marked, dryRun, origin, backend.objects, passed, page.value, report);
      }
      ok, report := SweepPage(backend, marked, keys, dryRun, report, origin, passed);
      if !ok || page.value.next.None? {
        return;
      }
      Shrinks(KeysUnder(origin, DATA), passed, keys);
      passed := page.value.next.value;
    }
  }

  /**
   * Collect: no change unless every manifest can be read back, nothing but unreferenced chunks deleted,
   * and after a run to the end all of them, with the report counting what was there and what went.  As
   * long as no call of the backend fails, it runs to the end if and only if every manifest can be read.
   */
  method Collect(backend: Backend, json: Json, dryRun: bool) returns (ok: bool, report: Report)
    modifies backend
    ensures Collected(json, old(backend.objects), backend.objects)
    ensures ok || backend.objects != old(backend.objects) ==> AllLoad(json, old(backend.objects))
    ensures backend.reliable ==> (ok <==> AllLoad(json, old(backend.objects)))
    ensures dryRun ==> backend.objects == old(backend.objects)
    ensures ok && !dryRun ==> NoOrphans(json, old(backend.objects), backend.objects)
    ensures ok ==> forall k: string :: k in report.orphans <==> k in old(backend.objects) && DATA <= k && !Referenced(json, old(backend.objects), k)
    ensures ok ==> report.deleted == if dryRun then 0 else |report.orphans|
    ensures ok ==> report.manifests == |KeysUnder(old(backend.objects), MANIFESTS)| && report.scanned == |KeysUnder(old(backend.objects), DATA)|
    ensures ok ==> CountsReferenced(json, old(backend.objects), report.referenced) && Conserves(report, old(backend.objects), backend.objects)
  {
    var marked, manifests, referenced := Mark(backend, json);
    if marked.None? {
      return false, Report(manifests, referenced, 0, 0, 0, {});
    }
    ok, report := Sweep(backend, marked.value, dryRun);
    report := report.(manifests := manifests, referenced := referenced);
  }

  /** A collection, finished or not, takes away nothing but chunks no manifest refers to. */
  ghost predicate Collected(json: Json, before: map<string, Bytes>, after: map<string, Bytes>) {
    && (forall k | k in after :: k in before && after[k] == before[k])
    && forall k | k in before && k !in after :: DATA <= k && !Referenced(json, before, k)
  }

  /** The manifests refer to n keys. */
  ghost predicate CountsReferenced(json: Json, objects: map<string, Bytes>, n: nat) {
    exists marked: set<string> :: |marked| == n && forall key: string :: key in marked <==> Referenced(json, objects, key)
  }

  /** No chunk is left that no manifest refers to. */
  ghost predicate NoOrphans(json: Json, before: map<string, Bytes>, after: map<string, Bytes>) {
    forall k | k in after && DATA <= k :: Referenced(json, before, k)
  }
}
