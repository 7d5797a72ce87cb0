/**
 `App::create_scene_from_file`: one material per imported material (a white
 fallback texture when it has no diffuse texture), one mesh per imported mesh
 (vertices zipped from the importer's arrays, indices flattened from its
 faces), then one object per mesh reference of every node, collected with an
 explicit stack. Any creation failure destroys the whole scene built so far.
 The importer is replaced by its result: no file, or a scene as a tree.
 */
module SceneLoader {
  import opened Wrappers
  import opened Gpu
  import opened SceneTypes
  import opened Assets
  import GpuImage

  // ---------------------------------------------------------------- importer result

  /** An imported material: the name of its first diffuse texture, if it has any. */
  datatype AiMaterial = AiMaterial(diffuseTexture: Option<string>)

  /** An imported mesh: per-vertex arrays, faces as index lists, and its material. */
  datatype AiMesh = AiMesh(
    positions: seq<Vec3>,
    texCoords: seq<Vec3>,
    normals: seq<Vec3>,
    faces: seq<seq<U32>>,
    materialIndex: nat)

  /** A scene-graph node: the meshes it references and its children. */
  datatype Node = Node(meshes: seq<nat>, children: seq<Node>)

  datatype AiScene = AiScene(root: Option<Node>, materials: seq<AiMaterial>, meshes: seq<AiMesh>)

  /** The vertex loop reads the three arrays at every vertex index. */
  predicate WellFormedMesh(m: AiMesh)
  {
    |m.texCoords| == |m.positions| && |m.normals| == |m.positions|
  }

  /**
   The texture file a material is loaded from: the white fallback, or a
   diffuse texture name resolved against the sponza asset directory.
   */
  datatype TexturePath = FallbackTexture | SponzaTexture(name: string)

  /** The path string passed to the image loader. */
  function PathText(p: TexturePath): string
  {
    match p
    case FallbackTexture => "../assets/white.png"
    case SponzaTexture(name) => "../assets/sponza/" + name
  }

  function MaterialPath(m: AiMaterial): TexturePath
  {
    if m.diffuseTexture.None? then FallbackTexture else SponzaTexture(m.diffuseTexture.value)
  }

  /** The texture files of the first `n` materials, in order. */
  function MaterialPaths(ms: seq<AiMaterial>, n: nat): (r: seq<TexturePath>)
    requires n <= |ms|
    ensures |r| == n
  {
    if n == 0 then [] else MaterialPaths(ms, n - 1) + [MaterialPath(ms[n - 1])]
  }

  lemma {:induction false} MaterialPathsAt(ms: seq<AiMaterial>, n: nat)
    requires n <= |ms|
    ensures forall k :: 0 <= k < n ==> MaterialPaths(ms, n)[k] == MaterialPath(ms[k])
  {
    if n > 0 {
      MaterialPathsAt(ms, n - 1);
    }
  }

  /** The vertex loop: position, u, normal, v. */
  function BuildVertices(m: AiMesh): (r: seq<Vertex>)
    requires WellFormedMesh(m)
    ensures |r| == |m.positions|
  {
    seq(|m.positions|, i requires 0 <= i < |m.positions| =>
      Vertex(m.positions[i], m.texCoords[i].x, m.normals[i], m.texCoords[i].y))
  }

  // ---------------------------------------------------------------- faces

  /** The faces' index lists one after another. */
  function Concat(faces: seq<seq<U32>>): seq<U32>
  {
    if |faces| == 0 then [] else Concat(faces[..|faces| - 1]) + faces[|faces| - 1]
  }

  /** The number of indices over all faces. */
  function TotalLength(faces: seq<seq<U32>>): nat
  {
    if |faces| == 0 then 0 else |faces[0]| + TotalLength(faces[1..])
  }

  /** The face loop: every index of every face, in order. */
  method FlattenFaces(faces: seq<seq<U32>>) returns (indices: seq<U32>)
    ensures indices == Concat(faces)
  {
    indices := [];
    var f := 0;
    while f < |faces|
      invariant 0 <= f <= |faces|
      invariant indices == Concat(faces[..f])
    {
      var j := 0;
      while j < |faces[f]|
        invariant 0 <= j <= |faces[f]|
        invariant indices == Concat(faces[..f]) + faces[f][..j]
      {
        indices := indices + [faces[f][j]];
        j := j + 1;
      }
      assert faces[f][..|faces[f]|] == faces[f];
      assert faces[..f + 1][..f] == faces[..f];
      f := f + 1;
    }
    assert faces[..|faces|] == faces;
  }

  lemma {:induction false} TotalLengthSnoc(faces: seq<seq<U32>>)
    requires |faces| > 0
    ensures TotalLength(faces) == TotalLength(faces[..|faces| - 1]) + |faces[|faces| - 1]|
  {
    if |faces| > 1 {
      assert faces[1..][..|faces[1..]| - 1] == faces[..|faces| - 1][1..];
      TotalLengthSnoc(faces[1..]);
    }
  }

  lemma {:induction false} FlattenLength(faces: seq<seq<U32>>)
    ensures |Concat(faces)| == TotalLength(faces)
  {
    if |faces| > 0 {
      FlattenLength(faces[..|faces| - 1]);
      TotalLengthSnoc(faces);
    }
  }

  /**
   Where each face lands: index j of face k sits at the total length of the
   faces before k, plus j.
   */
  lemma {:induction false} FlattenPosition(faces: seq<seq<U32>>, k: nat, j: nat)
    requires k < |faces| && j < |faces[k]|
    ensures TotalLength(faces[..k]) + j < |Concat(faces)|
    ensures Concat(faces)[TotalLength(faces[..k]) + j] == faces[k][j]
  {
    var init := faces[..|faces| - 1];
    assert Concat(faces) == Concat(init) + faces[|faces| - 1];
    if k < |faces| - 1 {
      assert faces[..k] == init[..k];
      FlattenPosition(init, k, j);
    } else {
      assert faces[..k] == init;
      FlattenLength(init);
    }
  }

  // ---------------------------------------------------------------- traversal

  function Size(n: Node): nat
    decreases n
  {
    1 + SizeSum(n.children)
  }

  function SizeSum(s: seq<Node>): nat
    decreases s
  {
    if |s| == 0 then 0 else SizeSum(s[..|s| - 1]) + Size(s[|s| - 1])
  }

  /** The order the stack loop visits mesh references: a node's own, then its children's, last child first. */
  function Order(n: Node): seq<nat>
    decreases n
  {
    n.meshes + StackOrder(n.children)
  }

  /** The references a stack of pending nodes yields, top (last) first. */
  function StackOrder(s: seq<Node>): seq<nat>
    decreases s
  {
    if |s| == 0 then [] else Order(s[|s| - 1]) + StackOrder(s[..|s| - 1])
  }

  /** Every mesh reference in the tree, counted with multiplicity, in no particular order. */
  function AllRefs(n: Node): multiset<nat>
    decreases n
  {
    multiset(n.meshes) + ChildRefs(n.children)
  }

  function ChildRefs(s: seq<Node>): multiset<nat>
    decreases s
  {
    if |s| == 0 then multiset{} else AllRefs(s[0]) + ChildRefs(s[1..])
  }

  function ObjectsOf(refs: seq<nat>): (r: seq<Object>)
    ensures |r| == |refs|
    ensures forall i :: 0 <= i < |refs| ==> r[i] == Object(refs[i])
  {
    seq(|refs|, i requires 0 <= i < |refs| => Object(refs[i]))
  }

  lemma ObjectsOfAppend(a: seq<nat>, b: seq<nat>)
    ensures ObjectsOf(a + b) == ObjectsOf(a) + ObjectsOf(b)
  {
  }

  lemma {:induction false} SizeSumAppend(a: seq<Node>, b: seq<Node>)
    ensures SizeSum(a + b) == SizeSum(a) + SizeSum(b)
    decreases |b|
  {
    if |b| > 0 {
      assert (a + b)[..|a + b| - 1] == a + b[..|b| - 1];
      assert (a + b)[|a + b| - 1] == b[|b| - 1];
      SizeSumAppend(a, b[..|b| - 1]);
    } else {
      assert a + b == a;
    }
  }

  /** Pushing nodes on a stack: they come out before everything already on it. */
  lemma {:induction false} StackOrderAppend(a: seq<Node>, b: seq<Node>)
    ensures StackOrder(a + b) == StackOrder(b) + StackOrder(a)
    decreases |b|
  {
    if |b| > 0 {
      assert (a + b)[..|a + b| - 1] == a + b[..|b| - 1];
      assert (a + b)[|a + b| - 1] == b[|b| - 1];
      StackOrderAppend(a, b[..|b| - 1]);
    } else {
      assert a + b == a;
    }
  }

  lemma {:induction false} ChildRefsSnoc(s: seq<Node>)
    requires |s| > 0
    ensures ChildRefs(s) == ChildRefs(s[..|s| - 1]) + AllRefs(s[|s| - 1])
  {
    if |s| > 1 {
      assert s[1..][..|s[1..]| - 1] == s[..|s| - 1][1..];
      ChildRefsSnoc(s[1..]);
    }
  }

  /** The stack order visits every mesh reference of the tree exactly once. */
  lemma {:induction false} OrderCoversTree(n: Node)
    ensures multiset(Order(n)) == AllRefs(n)
    decreases n
  {
    StackOrderCoversStack(n.children);
  }

  lemma {:induction false} StackOrderCoversStack(s: seq<Node>)
    ensures multiset(StackOrder(s)) == ChildRefs(s)
    decreases s
  {
    if |s| > 0 {
      OrderCoversTree(s[|s| - 1]);
      StackOrderCoversStack(s[..|s| - 1]);
      ChildRefsSnoc(s);
    }
  }

  /** Popping the top node and pushing its children: its own references come first. */
  lemma PopOrder(rest: seq<Node>, node: Node)
    ensures StackOrder(rest + [node]) == node.meshes + StackOrder(rest + node.children)
  {
    var own, below, older := node.meshes, StackOrder(node.children), StackOrder(rest);
    assert StackOrder([node]) == own + below by {
      assert [node][..0] == [];
    }
    assert StackOrder(rest + [node]) == StackOrder([node]) + older by {
      StackOrderAppend(rest, [node]);
    }
    assert StackOrder(rest + node.children) == below + older by {
      StackOrderAppend(rest, node.children);
    }
    assert (own + below) + older == own + (below + older);
  }

  /** Popping the top node and pushing its children shrinks the stack's total size. */
  lemma PopSize(rest: seq<Node>, node: Node)
    ensures SizeSum(rest + node.children) < SizeSum(rest + [node])
  {
    SizeSumAppend(rest, node.children);
    SizeSumAppend(rest, [node]);
    assert SizeSum([node]) == Size(node) by {
      assert [node][..0] == [];
    }
  }

  /**
   The node loop: pop the last node, push its children in order, emit one
   object per mesh reference. Appends exactly the stack order, which holds
   every reference of the tree once.
   */
  method Traverse(root: Node, objects0: seq<Object>) returns (objects: seq<Object>)
    ensures objects == objects0 + ObjectsOf(Order(root))
    ensures |objects| == |objects0| + |AllRefs(root)|
  {
    objects := objects0;
    var stack := [root];
    assert StackOrder(stack) == Order(root) by {
      assert stack[..0] == [];
    }
    while |stack| > 0
      invariant objects + ObjectsOf(StackOrder(stack)) == objects0 + ObjectsOf(Order(root))
      decreases SizeSum(stack)
    {
      var node := stack[|stack| - 1];
      var rest := stack[..|stack| - 1];
      assert stack == rest + [node];
      PopOrder(rest, node);
      PopSize(rest, node);
      ObjectsOfAppend(node.meshes, StackOrder(rest + node.children));
      stack := rest;
      var i := 0;
      while i < |node.children|
        invariant 0 <= i <= |node.children|
        invariant stack == rest + node.children[..i]
      {
        stack := stack + [node.children[i]];
        i := i + 1;
        assert node.children[..i] == node.children[..i - 1] + [node.children[i - 1]];
      }
      assert node.children[..|node.children|] == node.children;
      ghost var before := objects;
      var j := 0;
      while j < |node.meshes|
        invariant 0 <= j <= |node.meshes|
        invariant objects == before + ObjectsOf(node.meshes[..j])
      {
        objects := objects + [Object(node.meshes[j])];
        j := j + 1;
        assert ObjectsOf(node.meshes[..j]) == ObjectsOf(node.meshes[..j - 1]) + [Object(node.meshes[j - 1])];
      }
      assert node.meshes[..|node.meshes|] == node.meshes;
    }
    OrderCoversTree(root);
  }

  // ---------------------------------------------------------------- loading

  /** The outcomes of every fallible call, by material and by mesh number. */
  datatype Env = Env(material: nat -> MaterialCalls, mesh: nat -> MeshCalls)

  predicate MaterialOk(c: MaterialCalls)
  {
    c.imageOk && c.setResult == Success
  }

  predicate MeshOk(c: MeshCalls)
  {
    c.stagingOk && c.vertexOk && c.indexOk && c.submitOk
  }

  /** `scene` is `scene0` plus resources that were allocated between `a` and `a1`. */
  predicate Extends(a: Allocator, a1: Allocator, scene0: Scene, scene: Scene)
  {
    a1.Valid() && a.live <= a1.live && Resources(scene) == Resources(scene0) + (a1.live - a.live)
  }

  lemma ExtendsTrans(a: Allocator, a1: Allocator, a2: Allocator, s0: Scene, s1: Scene, s2: Scene)
    requires Extends(a, a1, s0, s1) && Extends(a1, a2, s1, s2)
    ensures Extends(a, a2, s0, s2)
  {
  }

  /** Destroying an extended scene frees what was added along with the original scene's resources. */
  lemma ExtendsUndone(a: Allocator, a1: Allocator, s0: Scene, s: Scene)
    requires Extends(a, a1, s0, s)
    ensures a1.live - Resources(s) == a.live - Resources(s0)
  {
  }

  /** Adding fresh allocations to the scene keeps it an extension. */
  lemma ExtendsGrow(a: Allocator, a1: Allocator, a2: Allocator, s0: Scene, s: Scene, s2: Scene, added: set<Id>)
    requires Extends(a, a1, s0, s)
    requires a2.Valid() && a2.live == a1.live + added && added !! a1.live
    requires Resources(s2) == Resources(s) + added
    ensures Extends(a, a2, s0, s2)
  {
    assert a2.live - a.live == (a1.live - a.live) + added;
  }

  lemma MaterialsResourcesSnoc(ms: seq<Material>, m: Material)
    ensures MaterialsResources(ms + [m]) == MaterialsResources(ms) + GpuImage.Held(m.diffuse)
  {
    assert (ms + [m])[..|ms|] == ms;
  }

  lemma MeshesResourcesSnoc(ms: seq<Mesh>, m: Mesh)
    ensures MeshesResources(ms + [m]) == MeshesResources(ms) + MeshResources(m)
  {
    assert (ms + [m])[..|ms|] == ms;
  }

  /**
   One iteration of the material loop: create the material and append it, or
   on failure destroy the scene built so far.
   */
  method AddMaterial(a: Allocator, alloc: Allocator, scene0: Scene, scene: Scene, sampler: Id, calls: MaterialCalls)
    returns (ok: bool, next: Scene, alloc1: Allocator, m: Material)
    requires Extends(a, alloc, scene0, scene)
    ensures ok <==> MaterialOk(calls)
    ensures alloc1.Valid()
    ensures ok ==> Extends(a, alloc1, scene0, next) && next == scene.(materials := scene.materials + [m]) && m.diffuseSet == calls.setHandle
    ensures !ok ==> next == EmptyScene() && alloc1.live == a.live - Resources(scene0)
  {
    var c := CreateMaterialFromFile(alloc, sampler, calls);
    if c.material.None? {
      ExtendsUndone(a, alloc, scene0, scene);
      var d := DestroyScene(c.allocator, scene);
      return false, d.scene, d.allocator, Material(0, GpuImage.Image(None, None, calls.extent, TextureFormat));
    }
    m := c.material.value;
    next := scene.(materials := scene.materials + [m]);
    MaterialsResourcesSnoc(scene.materials, m);
    ExtendsGrow(a, alloc, c.allocator, scene0, scene, next, GpuImage.Held(m.diffuse));
    ok, alloc1 := true, c.allocator;
  }

  /** The first `n` material creations all succeed. */
  predicate MaterialsOk(env: Env, n: nat)
  {
    n == 0 || (MaterialsOk(env, n - 1) && MaterialOk(env.material(n - 1)))
  }

  lemma {:induction false} MaterialsOkAll(env: Env, n: nat)
    ensures MaterialsOk(env, n) <==> forall k :: 0 <= k < n ==> MaterialOk(env.material(k))
  {
    if n > 0 {
      MaterialsOkAll(env, n - 1);
    }
  }

  /** Material `i` holds the descriptor set handed out by the `i`-th allocation. */
  predicate HoldsSets(ms: seq<Material>, env: Env)
  {
    forall i :: 0 <= i < |ms| ==> ms[i].diffuseSet == env.material(i).setHandle
  }

  lemma HoldsSetsSnoc(ms: seq<Material>, m: Material, env: Env)
    requires HoldsSets(ms, env) && m.diffuseSet == env.material(|ms|).setHandle
    ensures HoldsSets(ms + [m], env)
  {
    assert forall i :: 0 <= i < |ms| ==> (ms + [m])[i] == ms[i];
  }

  /**
   Material `k` of the loop, after the first `k` succeeded: appended on
   success, the scene destroyed on failure.
   */
  method MaterialStep(a: Allocator, alloc: Allocator, scene0: Scene, scene: Scene, sampler: Id, env: Env, k: nat, ghost added: seq<Material>)
    returns (ok: bool, next: Scene, alloc1: Allocator, ghost added1: seq<Material>)
    requires Extends(a, alloc, scene0, scene)
    requires scene == scene0.(materials := scene0.materials + added)
    requires |added| == k && HoldsSets(added, env)
    ensures ok <==> MaterialOk(env.material(k))
    ensures alloc1.Valid()
    ensures ok ==> && Extends(a, alloc1, scene0, next)
                   && next == scene0.(materials := scene0.materials + added1)
                   && |added1| == k + 1 && HoldsSets(added1, env)
    ensures !ok ==> next == EmptyScene() && alloc1.live == a.live - Resources(scene0)
  {
    var m;
    ok, next, alloc1, m := AddMaterial(a, alloc, scene0, scene, sampler, env.material(k));
    added1 := added + [m];
    if ok {
      HoldsSetsSnoc(added, m, env);
      assert scene0.materials + added + [m] == scene0.materials + added1;
    }
  }

  /** The material loop. */
  method LoadMaterials(f: AiScene, scene0: Scene, a: Allocator, sampler: Id, env: Env)
    returns (ok: bool, scene: Scene, alloc: Allocator, paths: seq<TexturePath>, ghost added: seq<Material>)
    requires a.Valid()
    ensures ok <==> MaterialsOk(env, |f.materials|)
    ensures alloc.Valid()
    ensures ok ==> && Extends(a, alloc, scene0, scene)
                   && scene == scene0.(materials := scene0.materials + added)
                   && |added| == |f.materials| && HoldsSets(added, env)
    ensures !ok ==> scene == EmptyScene() && alloc.live == a.live - Resources(scene0)
    ensures |paths| <= |f.materials| && (ok ==> |paths| == |f.materials|)
    ensures paths == MaterialPaths(f.materials, |paths|)
    // a failure stops the loop at the first failing material
    ensures !ok ==> |paths| > 0 && MaterialsOk(env, |paths| - 1) && !MaterialOk(env.material(|paths| - 1))
  {
    scene := scene0;
    alloc := a;
    added := [];
    var k := 0;
    while k < |f.materials|
      invariant 0 <= k <= |f.materials|
      invariant Extends(a, alloc, scene0, scene)
      invariant scene == scene0.(materials := scene0.materials + added)
      invariant |added| == k && HoldsSets(added, env)
      invariant MaterialsOk(env, k)
    {
      var stepOk, next, alloc1, added1 := MaterialStep(a, alloc, scene0, scene, sampler, env, k, added);
      if !stepOk {
        NotAllOk(env, k, |f.materials|);
        return false, next, alloc1, MaterialPaths(f.materials, k + 1), added;
      }
      scene, alloc, added, k := next, alloc1, added1, k + 1;
    }
    ok, paths := true, MaterialPaths(f.materials, k);
  }

  /** A failure at `k` makes every longer prefix fail. */
  lemma {:induction false} NotAllOk(env: Env, k: nat, n: nat)
    requires k < n && !MaterialOk(env.material(k))
    ensures !MaterialsOk(env, n)
  {
    if n - 1 > k {
      NotAllOk(env, k, n - 1);
    }
  }

  /**
   One iteration of the mesh loop: flatten the faces, create the mesh, set its
   material index and append it, or on failure destroy the scene built so far.
   */
  method AddMesh(a: Allocator, alloc: Allocator, scene0: Scene, scene: Scene, aiMesh: AiMesh, calls: MeshCalls)
    returns (ok: bool, next: Scene, alloc1: Allocator, mesh: Mesh)
    requires Extends(a, alloc, scene0, scene)
    requires WellFormedMesh(aiMesh)
    ensures ok <==> MeshOk(calls)
    ensures alloc1.Valid()
    ensures ok ==> && Extends(a, alloc1, scene0, next) && next == scene.(meshes := scene.meshes + [mesh])
                   && mesh.materialIdx == aiMesh.materialIndex
                   && mesh.indexCount == |Concat(aiMesh.faces)| % U32Modulus
    ensures !ok ==> next == EmptyScene() && alloc1.live == a.live - Resources(scene0)
  {
    var vertices := BuildVertices(aiMesh);
    var indices := FlattenFaces(aiMesh.faces);
    var c := CreateMesh(alloc, vertices, indices, calls);
    if c.mesh.None? {
      ExtendsUndone(a, alloc, scene0, scene);
      var d := DestroyScene(c.allocator, scene);
      return false, d.scene, d.allocator, Mesh(0, 0, 0, 0, 0);
    }
    mesh := c.mesh.value.(materialIdx := aiMesh.materialIndex);
    next := scene.(meshes := scene.meshes + [mesh]);
    MeshesResourcesSnoc(scene.meshes, mesh);
    ExtendsGrow(a, alloc, c.allocator, scene0, scene, next, MeshResources(mesh));
    ok, alloc1 := true, c.allocator;
  }

  /** The first `n` mesh creations all succeed. */
  predicate MeshesOk(env: Env, n: nat)
  {
    n == 0 || (MeshesOk(env, n - 1) && MeshOk(env.mesh(n - 1)))
  }

  lemma {:induction false} MeshesOkAll(env: Env, n: nat)
    ensures MeshesOk(env, n) <==> forall k :: 0 <= k < n ==> MeshOk(env.mesh(k))
  {
    if n > 0 {
      MeshesOkAll(env, n - 1);
    }
  }

  /** A failure at `k` makes every longer prefix fail. */
  lemma {:induction false} NotAllMeshesOk(env: Env, k: nat, n: nat)
    requires k < n && !MeshOk(env.mesh(k))
    ensures !MeshesOk(env, n)
  {
    if n - 1 > k {
      NotAllMeshesOk(env, k, n - 1);
    }
  }

  /** A created mesh carries its imported mesh's material and index count. */
  predicate Matches(mesh: Mesh, aiMesh: AiMesh)
  {
    mesh.materialIdx == aiMesh.materialIndex && mesh.indexCount == |Concat(aiMesh.faces)| % U32Modulus
  }

  /** The mesh loop. */
  method LoadMeshes(f: AiScene, scene0: Scene, a: Allocator, env: Env)
    returns (ok: bool, scene: Scene, alloc: Allocator, ghost added: seq<Mesh>)
    requires a.Valid()
    requires forall m :: m in f.meshes ==> WellFormedMesh(m)
    ensures ok <==> MeshesOk(env, |f.meshes|)
    ensures alloc.Valid()
    ensures ok ==> && Extends(a, alloc, scene0, scene)
                   && scene == scene0.(meshes := scene0.meshes + added)
                   && |added| == |f.meshes|
                   && forall k :: 0 <= k < |f.meshes| ==> Matches(added[k], f.meshes[k])
    ensures !ok ==> scene == EmptyScene() && alloc.live == a.live - Resources(scene0)
  {
    scene := scene0;
    alloc := a;
    added := [];
    var k := 0;
    while k < |f.meshes|
      invariant 0 <= k <= |f.meshes|
      invariant Extends(a, alloc, scene0, scene)
      invariant scene == scene0.(meshes := scene0.meshes + added)
      invariant |added| == k
      invariant forall j :: 0 <= j < k ==> Matches(added[j], f.meshes[j])
      invariant MeshesOk(env, k)
    {
      var stepOk, next, alloc1, mesh := AddMesh(a, alloc, scene0, scene, f.meshes[k], env.mesh(k));
      if !stepOk {
        NotAllMeshesOk(env, k, |f.meshes|);
        return false, next, alloc1, added;
      }
      added := added + [mesh];
      scene, alloc, k := next, alloc1, k + 1;
    }
    ok := true;
  }

  /**
   `App::create_scene_from_file` into `scene0`. Without a file or a root node
   it returns false and touches nothing; any other failure leaves the scene
   empty with everything it owned freed; success appends the materials, the
   meshes and the traversal's objects. Destroying the result always leaves
   exactly the allocations that existed before, minus the scene's own.
   */
  method CreateSceneFromFile(file: Option<AiScene>, scene0: Scene, a: Allocator, sampler: Id, env: Env)
    returns (ok: bool, scene: Scene, alloc: Allocator, paths: seq<TexturePath>, ghost materials: seq<Material>, ghost meshes: seq<Mesh>)
    requires a.Valid()
    requires file.Some? ==> forall m :: m in file.value.meshes ==> WellFormedMesh(m)
    ensures alloc.Valid()
    ensures ok <==> && file.Some? && file.value.root.Some?
                    && MaterialsOk(env, |file.value.materials|) && MeshesOk(env, |file.value.meshes|)
    ensures file.None? || file.value.root.None? ==> !ok && scene == scene0 && alloc == a && paths == []
    ensures !ok && file.Some? && file.value.root.Some? ==> scene == EmptyScene() && alloc.live == a.live - Resources(scene0)
    // success appends one material per imported material, one mesh per imported mesh and the traversal's objects
    ensures ok ==>
              && scene == Scene(scene0.meshes + meshes, scene0.materials + materials, scene0.objects + ObjectsOf(Order(file.value.root.value)))
              && |materials| == |file.value.materials| && HoldsSets(materials, env)
              && |meshes| == |file.value.meshes|
              && (forall k :: 0 <= k < |file.value.meshes| ==> Matches(meshes[k], file.value.meshes[k]))
              && a.live <= alloc.live
              && Resources(scene) == Resources(scene0) + (alloc.live - a.live)
    // the texture file of every material tried, in order
    ensures file.Some? ==> |paths| <= |file.value.materials| && paths == MaterialPaths(file.value.materials, |paths|)
    // zero net allocations: destroying whatever came back frees everything this call allocated
    ensures DestroyScene(alloc, scene).allocator.live == a.live - Resources(scene0)
  {
    if file.None? || file.value.root.None? {
      return false, scene0, a, [], [], [];
    }
    var f := file.value;
    var s1, a1;
    ok, s1, a1, paths, materials := LoadMaterials(f, scene0, a, sampler, env);
    if !ok {
      return false, s1, a1, paths, [], [];
    }
    var s2, a2;
    ok, s2, a2, meshes := LoadMeshes(f, s1, a1, env);
    if !ok {
      ExtendsUndone(a, a1, scene0, s1);
      return false, s2, a2, paths, [], [];
    }
    ExtendsTrans(a, a1, a2, scene0, s1, s2);
    var objects := Traverse(f.root.value, s2.objects);
    scene := s2.(objects := objects);
    alloc := a2;
  }
}
