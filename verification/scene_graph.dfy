/**
 * The scene tree and the walk `Experience.destroy()` runs over it with
 * `scene.traverse`: every node is visited before its children, depth first.
 * For each Mesh the walk disposes its geometry, then every material property
 * value that is truthy and whose `dispose` member is a function, in the
 * order `for...in` enumerates the keys.  Nothing is deduplicated: a resource
 * shared by k meshes is disposed k times.
 */
module SceneGraph {
  import opened Effects

  /**
   * A material property value as the walk inspects it: whether it is truthy,
   * whether `typeof value.dispose === 'function'`, and the identity of the
   * object it refers to.
   */
  datatype Value = Value(truthy: bool, hasDisposeFunction: bool, resource: nat)

  /** One enumerable key of a material and its value. */
  datatype Property = Property(key: string, value: Value)

  /** A Mesh carries a geometry and a material; every other node carries nothing the walk reads. */
  datatype Kind = Mesh(geometry: nat, material: seq<Property>) | NonMesh

  datatype Object3D = Object3D(kind: Kind, children: seq<Object3D>)

  predicate Disposable(v: Value)
  {
    v.truthy && v.hasDisposeFunction
  }

  /** The number of material values the walk disposes. */
  function DisposableCount(material: seq<Property>): nat
    decreases |material|
  {
    if material == [] then 0
    else (if Disposable(material[0].value) then 1 else 0) + DisposableCount(material[1..])
  }

  /** The loop over a mesh's material: exactly the disposable values, in key order. */
  function MaterialDisposals(material: seq<Property>): (r: seq<Call>)
    ensures |r| == DisposableCount(material)
    ensures forall k :: 0 <= k < |r| ==> r[k].ValueDisposed?
    ensures forall id :: ValueDisposed(id) in r <==>
      exists i :: 0 <= i < |material| && Disposable(material[i].value) && material[i].value.resource == id
    decreases |material|
  {
    if material == [] then []
    else
      var rest := MaterialDisposals(material[1..]);
      assert forall i :: 1 <= i < |material| ==> material[1..][i - 1] == material[i];
      if Disposable(material[0].value) then [ValueDisposed(material[0].value.resource)] + rest else rest
  }

  /** What the traversal callback does with one node. */
  function NodeDisposals(kind: Kind): (r: seq<Call>)
    ensures kind.NonMesh? ==> r == []
    ensures kind.Mesh? ==> |r| == 1 + DisposableCount(kind.material) && r[0] == GeometryDisposed(kind.geometry)
  {
    match kind
    case Mesh(geometry, material) => [GeometryDisposed(geometry)] + MaterialDisposals(material)
    case NonMesh => []
  }

  /** `node.traverse(callback)`: the callback on the node, then on each child's subtree in order. */
  function Dispose(node: Object3D): (r: seq<Call>)
    ensures OnlyDisposals(r)
    ensures node.kind.Mesh? ==> |r| > 0 && r[0] == GeometryDisposed(node.kind.geometry)
    ensures node.kind.NonMesh? && node.children == [] ==> r == []
    decreases node, 1
  {
    NodeDisposals(node.kind) + DisposeAll(node.children)
  }

  function DisposeAll(nodes: seq<Object3D>): (r: seq<Call>)
    ensures OnlyDisposals(r)
    ensures nodes == [] ==> r == []
    decreases nodes, 0
  {
    if nodes == [] then [] else Dispose(nodes[0]) + DisposeAll(nodes[1..])
  }

  /** The geometries of the tree's meshes, one occurrence per mesh. */
  function Geometries(node: Object3D): multiset<nat>
    decreases node, 1
  {
    (if node.kind.Mesh? then multiset{node.kind.geometry} else multiset{}) + GeometriesAll(node.children)
  }

  function GeometriesAll(nodes: seq<Object3D>): multiset<nat>
    decreases nodes, 0
  {
    if nodes == [] then multiset{} else Geometries(nodes[0]) + GeometriesAll(nodes[1..])
  }

  /** The disposable material values of the tree's meshes, one occurrence per mesh and key. */
  function MaterialValues(material: seq<Property>): multiset<nat>
    decreases |material|
  {
    if material == [] then multiset{}
    else
      var own := if Disposable(material[0].value) then multiset{material[0].value.resource} else multiset{};
      own + MaterialValues(material[1..])
  }

  function Values(node: Object3D): multiset<nat>
    decreases node, 1
  {
    (if node.kind.Mesh? then MaterialValues(node.kind.material) else multiset{}) + ValuesAll(node.children)
  }

  function ValuesAll(nodes: seq<Object3D>): multiset<nat>
    decreases nodes, 0
  {
    if nodes == [] then multiset{} else Values(nodes[0]) + ValuesAll(nodes[1..])
  }

  /** The geometries a call log disposes, with multiplicity. */
  function DisposedGeometries(calls: seq<Call>): multiset<nat>
    decreases |calls|
  {
    if calls == [] then multiset{}
    else
      var own := if calls[0].GeometryDisposed? then multiset{calls[0].geometry} else multiset{};
      own + DisposedGeometries(calls[1..])
  }

  /** The material values a call log disposes, with multiplicity. */
  function DisposedValues(calls: seq<Call>): multiset<nat>
    decreases |calls|
  {
    if calls == [] then multiset{}
    else
      var own := if calls[0].ValueDisposed? then multiset{calls[0].resource} else multiset{};
      own + DisposedValues(calls[1..])
  }

  /** Only geometries and material values are disposed by the walk. */
  predicate OnlyDisposals(calls: seq<Call>)
  {
    forall k :: 0 <= k < |calls| ==> calls[k].GeometryDisposed? || calls[k].ValueDisposed?
  }

  /** Appending subtrees to a child list adds their geometries. */
  lemma {:induction false} GeometriesAppend(a: seq<Object3D>, b: seq<Object3D>)
    ensures GeometriesAll(a + b) == GeometriesAll(a) + GeometriesAll(b)
    decreases |a|
  {
    if a != [] {
      assert (a + b)[1..] == a[1..] + b;
      GeometriesAppend(a[1..], b);
    } else {
      assert a + b == b;
    }
  }

  /** Appending subtrees to a child list adds their disposable values. */
  lemma {:induction false} ValuesAppend(a: seq<Object3D>, b: seq<Object3D>)
    ensures ValuesAll(a + b) == ValuesAll(a) + ValuesAll(b)
    decreases |a|
  {
    if a != [] {
      assert (a + b)[1..] == a[1..] + b;
      ValuesAppend(a[1..], b);
    } else {
      assert a + b == b;
    }
  }

  lemma {:induction false} DisposedSplit(a: seq<Call>, b: seq<Call>)
    ensures DisposedGeometries(a + b) == DisposedGeometries(a) + DisposedGeometries(b)
    ensures DisposedValues(a + b) == DisposedValues(a) + DisposedValues(b)
    decreases |a|
  {
    if a == [] {
      assert a + b == b;
    } else {
      assert (a + b)[1..] == a[1..] + b;
      DisposedSplit(a[1..], b);
    }
  }

  lemma {:induction false} MaterialDisposalsMatch(material: seq<Property>)
    ensures DisposedGeometries(MaterialDisposals(material)) == multiset{}
    ensures DisposedValues(MaterialDisposals(material)) == MaterialValues(material)
    decreases |material|
  {
    if material != [] {
      var rest := MaterialDisposals(material[1..]);
      MaterialDisposalsMatch(material[1..]);
      if Disposable(material[0].value) {
        DisposedSplit([ValueDisposed(material[0].value.resource)], rest);
      }
    }
  }

  /**
   * The walk disposes each mesh's geometry once per mesh (a geometry shared
   * by k meshes is disposed k times), each disposable material value once
   * per mesh and key, and nothing else: non-Mesh nodes contribute nothing.
   */
  lemma {:induction false} DisposeMatchesTree(node: Object3D)
    ensures OnlyDisposals(Dispose(node))
    ensures DisposedGeometries(Dispose(node)) == Geometries(node)
    ensures DisposedValues(Dispose(node)) == Values(node)
    decreases node, 1
  {
    var own := NodeDisposals(node.kind);
    DisposeAllMatchesTrees(node.children);
    DisposedSplit(own, DisposeAll(node.children));
    if node.kind.Mesh? {
      MaterialDisposalsMatch(node.kind.material);
      DisposedSplit([GeometryDisposed(node.kind.geometry)], MaterialDisposals(node.kind.material));
    }
  }

  lemma {:induction false} DisposeAllMatchesTrees(nodes: seq<Object3D>)
    ensures OnlyDisposals(DisposeAll(nodes))
    ensures DisposedGeometries(DisposeAll(nodes)) == GeometriesAll(nodes)
    ensures DisposedValues(DisposeAll(nodes)) == ValuesAll(nodes)
    decreases nodes, 0
  {
    if nodes != [] {
      DisposeMatchesTree(nodes[0]);
      DisposeAllMatchesTrees(nodes[1..]);
      DisposedSplit(Dispose(nodes[0]), DisposeAll(nodes[1..]));
    }
  }

  /** Two meshes sharing one geometry under a group: the geometry is disposed twice. */
  lemma SharedGeometryDisposedTwice(g: nat)
    ensures var scene := Object3D(NonMesh, [Object3D(Mesh(g, []), []), Object3D(Mesh(g, []), [])]);
      Dispose(scene) == [GeometryDisposed(g), GeometryDisposed(g)]
      && DisposedGeometries(Dispose(scene))[g] == 2
  {
    var leaf := Object3D(Mesh(g, []), []);
    var scene := Object3D(NonMesh, [leaf, leaf]);
    assert Dispose(leaf) == [GeometryDisposed(g)];
    assert DisposeAll([leaf]) == [GeometryDisposed(g)];
    assert DisposeAll([leaf, leaf]) == Dispose(leaf) + DisposeAll([leaf]);
    DisposeMatchesTree(scene);
    assert Geometries(leaf) == multiset{g};
    assert GeometriesAll([leaf]) == multiset{g};
    assert GeometriesAll([leaf, leaf]) == Geometries(leaf) + GeometriesAll([leaf]);
  }
}
