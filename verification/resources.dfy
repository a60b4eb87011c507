/**
 * `Utils/Resources.js`: the asset loader with its completion barrier.
 *
 * The constructor fixes `toLoad` at the number of sources and starts one load
 * per source, choosing the loader by the source's `type`.  Every success
 * callback stores its file under the source's name, counts one more load and
 * triggers 'ready' when the count equals `toLoad`.  Load completions arrive
 * in any order; they are modelled as a trace of `Completion` events.
 */
module Resources {
  import opened Options

  /** One entry of the `sources` list: `{name, type, path}`. */
  datatype Source = Source(name: string, kind: string, path: string)

  /** The three loaders `setLoaders` creates. */
  datatype Loader = GltfLoader | TextureLoader | CubeTextureLoader

  /** One `load(path, callback)` call made by `startLoading` for `sources[index]`. */
  datatype Request = Request(index: nat, loader: Loader, path: string)

  /** The state `sourceLoaded` updates; `F` is the type of a loaded file. */
  datatype Registry<F> = Registry(items: map<string, F>, toLoad: nat, loaded: nat)

  /** The success callback of the load of `sources[index]`, delivering `file`. */
  datatype Completion<F> = Completion(index: nat, file: F)

  const ReadyEvent := "ready"

  /** The `switch (source.type)` of `startLoading`; it has no default branch. */
  function LoaderFor(kind: string): (r: Option<Loader>)
    ensures r.Some? <==> kind == "gltfModel" || kind == "texture" || kind == "cubeTexture"
    ensures kind == "gltfModel" ==> r == Some(GltfLoader)
    ensures kind == "texture" ==> r == Some(TextureLoader)
    ensures kind == "cubeTexture" ==> r == Some(CubeTextureLoader)
  {
    if kind == "gltfModel" then Some(GltfLoader)
    else if kind == "texture" then Some(TextureLoader)
    else if kind == "cubeTexture" then Some(CubeTextureLoader)
    else None
  }

  predicate Dispatches(s: Source)
  {
    LoaderFor(s.kind).Some?
  }

  /** The load calls `startLoading` makes for `sources[from..]`, in list order. */
  function RequestsFrom(sources: seq<Source>, from: nat): (r: seq<Request>)
    requires from <= |sources|
    ensures |r| <= |sources| - from
    ensures forall k :: 0 <= k < |r| ==>
      && from <= r[k].index < |sources|
      && LoaderFor(sources[r[k].index].kind) == Some(r[k].loader)
      && r[k].path == sources[r[k].index].path
    ensures forall j, k :: 0 <= j < k < |r| ==> r[j].index < r[k].index
    ensures forall i :: from <= i < |sources| && Dispatches(sources[i]) ==>
      Request(i, LoaderFor(sources[i].kind).value, sources[i].path) in r
    decreases |sources| - from
  {
    if from == |sources| then []
    else
      var rest := RequestsFrom(sources, from + 1);
      match LoaderFor(sources[from].kind)
      case Some(loader) => [Request(from, loader, sources[from].path)] + rest
      case None => rest
  }

  /** `startLoading`: one load per source whose type has a loader, none for the others. */
  function StartLoading(sources: seq<Source>): (r: seq<Request>)
    ensures |r| <= |sources|
    ensures forall k :: 0 <= k < |r| ==>
      && r[k].index < |sources|
      && LoaderFor(sources[r[k].index].kind) == Some(r[k].loader)
      && r[k].path == sources[r[k].index].path
    ensures forall j, k :: 0 <= j < k < |r| ==> r[j].index < r[k].index
    ensures forall i :: 0 <= i < |sources| && Dispatches(sources[i]) ==>
      Request(i, LoaderFor(sources[i].kind).value, sources[i].path) in r
  {
    RequestsFrom(sources, 0)
  }

  /** The indices in `sources[from..]` whose load is dispatched. */
  function DispatchedFrom(sources: seq<Source>, from: nat): (d: set<nat>)
    requires from <= |sources|
    ensures forall i :: i in d <==> from <= i < |sources| && Dispatches(sources[i])
    ensures |d| <= |sources| - from
    ensures (exists i :: from <= i < |sources| && !Dispatches(sources[i])) ==> |d| < |sources| - from
    decreases |sources| - from
  {
    if from == |sources| then {}
    else
      var rest := DispatchedFrom(sources, from + 1);
      if Dispatches(sources[from]) then {from} + rest else rest
  }

  /** The constructor: nothing stored, nothing loaded, `toLoad` is the list length. */
  function Init<F>(sources: seq<Source>): (r: Registry<F>)
    ensures r.items == map[] && r.loaded == 0 && r.toLoad == |sources|
  {
    Registry(map[], |sources|, 0)
  }

  /** `sourceLoaded(source, file)`: the registry after the callback and the events it triggers. */
  function SourceLoaded<F>(r: Registry<F>, source: Source, file: F): (res: (Registry<F>, seq<string>))
    ensures res.0.items == r.items[source.name := file]
    ensures res.0.loaded == r.loaded + 1 && res.0.toLoad == r.toLoad
    ensures res.1 == [ReadyEvent] || res.1 == []
    ensures res.1 == [ReadyEvent] <==> r.loaded + 1 == r.toLoad
  {
    var r' := r.(items := r.items[source.name := file], loaded := r.loaded + 1);
    (r', if r'.loaded == r'.toLoad then [ReadyEvent] else [])
  }

  /** A completion trace the loaders can produce: each dispatched load calls back at most once. */
  predicate ValidTrace<F>(sources: seq<Source>, t: seq<Completion<F>>)
  {
    && (forall k :: 0 <= k < |t| ==> t[k].index < |sources| && Dispatches(sources[t[k].index]))
    && (forall j, k :: 0 <= j < k < |t| ==> t[j].index != t[k].index)
  }

  /**
   * Runs the callbacks of `t` in order.  `fired[k]` says whether the k-th
   * callback triggered 'ready'.
   */
  function Run<F>(sources: seq<Source>, r: Registry<F>, t: seq<Completion<F>>): (res: (Registry<F>, seq<bool>))
    requires forall k :: 0 <= k < |t| ==> t[k].index < |sources|
    ensures res.0.loaded == r.loaded + |t| && res.0.toLoad == r.toLoad
    ensures |res.1| == |t|
    decreases |t|
  {
    if t == [] then (r, [])
    else
      var (r1, events) := SourceLoaded(r, sources[t[0].index], t[0].file);
      var (r2, fired) := Run(sources, r1, t[1..]);
      (r2, [events != []] + fired)
  }

  /** The source names of the callbacks in `t`, in trace order. */
  function NamesOf<F>(sources: seq<Source>, t: seq<Completion<F>>): (ns: seq<string>)
    requires forall k :: 0 <= k < |t| ==> t[k].index < |sources|
    ensures |ns| == |t|
    ensures forall k :: 0 <= k < |t| ==> ns[k] == sources[t[k].index].name
  {
    seq(|t|, k requires 0 <= k < |t| => sources[t[k].index].name)
  }

  /** The file of the last callback in `t` for a source called `name`, if any. */
  function LastFile<F>(sources: seq<Source>, t: seq<Completion<F>>, name: string): Option<F>
    requires forall k :: 0 <= k < |t| ==> t[k].index < |sources|
    decreases |t|
  {
    if t == [] then None
    else
      var later := LastFile(sources, t[1..], name);
      if later.Some? then later
      else if sources[t[0].index].name == name then Some(t[0].file)
      else None
  }

  /** Each callback adds exactly one to `loaded`; 'ready' fires on the one that reaches `toLoad`. */
  lemma {:induction false} RunCounts<F>(sources: seq<Source>, r: Registry<F>, t: seq<Completion<F>>)
    requires forall k :: 0 <= k < |t| ==> t[k].index < |sources|
    ensures var fired := Run(sources, r, t).1;
      forall k :: 0 <= k < |t| ==> (fired[k] <==> r.loaded + k + 1 == r.toLoad)
    decreases |t|
  {
    if t != [] {
      var (r1, events) := SourceLoaded(r, sources[t[0].index], t[0].file);
      RunCounts(sources, r1, t[1..]);
      var fired := Run(sources, r, t).1;
      assert fired == [events != []] + Run(sources, r1, t[1..]).1;
      forall k | 0 <= k < |t|
        ensures fired[k] <==> r.loaded + k + 1 == r.toLoad
      {
        if k > 0 {
          assert fired[k] == Run(sources, r1, t[1..]).1[k - 1];
        }
      }
    }
  }

  /**
   * From the constructor's state, the k-th callback triggers 'ready' exactly
   * when it is callback number `sources.length`, so 'ready' fires at most once
   * and never while fewer callbacks than sources have arrived.
   */
  lemma {:induction false} ReadyFiresOnce<F>(sources: seq<Source>, t: seq<Completion<F>>)
    requires forall k :: 0 <= k < |t| ==> t[k].index < |sources|
    ensures var (reg, fired) := Run(sources, Init<F>(sources), t);
      && reg.loaded == |t| && reg.toLoad == |sources|
      && (forall k :: 0 <= k < |t| ==> (fired[k] <==> k + 1 == |sources|))
      && (forall j, k :: 0 <= j < |t| && 0 <= k < |t| && fired[j] && fired[k] ==> j == k)
      && (|t| < |sources| ==> forall k :: 0 <= k < |t| ==> !fired[k])
  {
    RunCounts(sources, Init<F>(sources), t);
  }

  /** Distinct indices drawn from `S` are at most `|S|` many. */
  lemma {:induction false} DistinctIndicesBound<F>(t: seq<Completion<F>>, S: set<nat>)
    requires forall k :: 0 <= k < |t| ==> t[k].index in S
    requires forall j, k :: 0 <= j < k < |t| ==> t[j].index != t[k].index
    ensures |t| <= |S|
    decreases |t|
  {
    if t != [] {
      var rest := t[1..];
      assert forall k :: 0 <= k < |rest| ==> rest[k] == t[k + 1];
      DistinctIndicesBound(rest, S - {t[0].index});
    }
  }

  /** A valid trace has no more callbacks than there are dispatched loads. */
  lemma {:induction false} ValidTraceBound<F>(sources: seq<Source>, t: seq<Completion<F>>)
    requires ValidTrace(sources, t)
    ensures |t| <= |DispatchedFrom(sources, 0)| <= |sources|
  {
    DistinctIndicesBound(t, DispatchedFrom(sources, 0));
  }

  /**
   * For a trace the loaders can produce, 'ready' fires if and only if the
   * list is non-empty, every source had a loader, and every load called back.
   */
  lemma {:induction false} ReadyIffAllLoaded<F>(sources: seq<Source>, t: seq<Completion<F>>)
    requires ValidTrace(sources, t)
    ensures var fired := Run(sources, Init<F>(sources), t).1;
      (exists k :: 0 <= k < |t| && fired[k])
      <==> (|sources| > 0 && |t| == |sources| && forall i :: 0 <= i < |sources| ==> Dispatches(sources[i]))
  {
    ValidTraceBound(sources, t);
    ReadyFiresOnce(sources, t);
    var fired := Run(sources, Init<F>(sources), t).1;
    if |sources| > 0 && |t| == |sources| {
      assert fired[|t| - 1];
    }
  }

  /** An empty source list dispatches nothing, so no callback runs and 'ready' never fires. */
  lemma EmptyNeverReady<F>(t: seq<Completion<F>>)
    requires ValidTrace([], t)
    ensures StartLoading([]) == []
    ensures t == []
    ensures Run([], Init<F>([]), t) == (Init<F>([]), [])
  {
    ValidTraceBound([], t);
  }

  /** One source with an unknown type blocks 'ready' forever: its load is never dispatched. */
  lemma UnknownKindNeverReady<F>(sources: seq<Source>, t: seq<Completion<F>>, i: nat)
    requires i < |sources| && !Dispatches(sources[i])
    requires ValidTrace(sources, t)
    ensures forall k :: 0 <= k < |StartLoading(sources)| ==> StartLoading(sources)[k].index != i
    ensures var fired := Run(sources, Init<F>(sources), t).1;
      forall k :: 0 <= k < |t| ==> !fired[k]
  {
    ReadyIffAllLoaded(sources, t);
    ReadyFiresOnce(sources, t);
  }

  /** A name has a last file exactly when some callback in `t` carries it. */
  lemma {:induction false} LastFileFound<F>(sources: seq<Source>, t: seq<Completion<F>>, n: string)
    requires forall k :: 0 <= k < |t| ==> t[k].index < |sources|
    ensures LastFile(sources, t, n).Some? <==> n in NamesOf(sources, t)
    decreases |t|
  {
    if t != [] {
      var rest := t[1..];
      LastFileFound(sources, rest, n);
      assert NamesOf(sources, t) == [sources[t[0].index].name] + NamesOf(sources, rest);
    }
  }

  /**
   * `items` gains exactly the names whose callbacks ran; each such name holds
   * the file of its last callback (a duplicate name overwrites), and every
   * other entry is unchanged.
   */
  lemma {:induction false} RunItems<F>(sources: seq<Source>, r: Registry<F>, t: seq<Completion<F>>)
    requires forall k :: 0 <= k < |t| ==> t[k].index < |sources|
    ensures var items := Run(sources, r, t).0.items;
      && (forall n :: n in items <==> n in r.items || n in NamesOf(sources, t))
      && (forall n :: LastFile(sources, t, n).Some? ==> n in items && items[n] == LastFile(sources, t, n).value)
      && (forall n :: LastFile(sources, t, n).None? && n in r.items ==> items[n] == r.items[n])
    decreases |t|
  {
    if t != [] {
      var (r1, _) := SourceLoaded(r, sources[t[0].index], t[0].file);
      var rest := t[1..];
      RunItems(sources, r1, rest);
      assert Run(sources, r, t).0 == Run(sources, r1, rest).0;
      assert NamesOf(sources, t) == [sources[t[0].index].name] + NamesOf(sources, rest);
      forall n
        ensures n in NamesOf(sources, t) <==> n == sources[t[0].index].name || n in NamesOf(sources, rest)
      {
        LastFileFound(sources, rest, n);
      }
      forall n {
        LastFileFound(sources, rest, n);
      }
    }
  }

  /** A sequence's elements are no more than its length, and as many exactly when they are distinct. */
  lemma {:induction false} DistinctCount<T>(s: seq<T>)
    ensures |set x | x in s| <= |s|
    ensures |set x | x in s| == |s| <==> forall j, k :: 0 <= j < k < |s| ==> s[j] != s[k]
    decreases |s|
  {
    if s != [] {
      var rest := s[1..];
      DistinctCount(rest);
      assert (set x | x in s) == {s[0]} + (set x | x in rest);
      if s[0] in rest {
        var k :| 0 <= k < |rest| && rest[k] == s[0];
        assert s[k + 1] == s[0];
      } else {
        assert |set x | x in s| == |set x | x in rest| + 1;
        if |set x | x in s| == |s| {
          forall j, k | 0 <= j < k < |s|
            ensures s[j] != s[k]
          {
            assert s[k] == rest[k - 1];
            if j > 0 {
              assert s[j] == rest[j - 1];
            }
          }
        }
      }
    }
  }

  /**
   * A duplicate name overwrites yet still counts: from the constructor's
   * state, the number of stored items is at most `loaded`, and equal to it
   * exactly when the callbacks' source names are pairwise distinct.
   */
  lemma {:induction false} DuplicatesStillCount<F>(sources: seq<Source>, t: seq<Completion<F>>)
    requires forall k :: 0 <= k < |t| ==> t[k].index < |sources|
    ensures var reg := Run(sources, Init<F>(sources), t).0;
      && |reg.items| <= reg.loaded
      && (|reg.items| == reg.loaded
          <==> forall j, k :: 0 <= j < k < |t| ==> sources[t[j].index].name != sources[t[k].index].name)
  {
    var reg := Run(sources, Init<F>(sources), t).0;
    var ns := NamesOf(sources, t);
    RunItems(sources, Init<F>(sources), t);
    assert reg.items.Keys == set x | x in ns;
    DistinctCount(ns);
  }
}
