/** The element assembly skeleton: DOF requests fanned out to the nodes, the
    zero-sized force and stiffness storage, the topology-to-face tables, the
    per-node transformation list, and the copy-then-transform stiffness loop. */
module Elements {
  import opened Outcomes
  import opened Identity
  import opened Nodes
  import opened Faces

  /** The plotting/topology tag of an element. */
  datatype ElementType = Unknown | Line | Curve | Triangle | Quad | Tetrahedron | Brick

  /** A dense matrix, row by row. */
  type Matrix = seq<seq<real>>

  /** A transformation object attached to nodes; its own code (registering
      clients, mapping vectors and matrices) is not part of this model. */
  datatype Transform = Transform(handle: nat)

  // ---------------------------------------------------------------------------
  // Face tables.
  // ---------------------------------------------------------------------------

  /** A face table with `count` faces of `size` local node indices, each below `n`. */
  predicate Shaped(tab: seq<seq<nat>>, count: nat, size: nat, n: nat)
  {
    && |tab| == count
    && (forall f :: 0 <= f < |tab| ==> |tab[f]| == size)
    && (forall f, k :: 0 <= f < |tab| && 0 <= k < |tab[f]| ==> tab[f][k] < n)
  }

  function Tri3(): (t: seq<seq<nat>>)
    ensures Shaped(t, 3, 2, 3)
  {
    [[0, 1], [1, 2], [2, 0]]
  }
  function Tri6(): (t: seq<seq<nat>>)
    ensures Shaped(t, 3, 3, 6)
  {
    [[0, 3, 1], [1, 4, 2], [2, 5, 0]]
  }
  function Quad4(): (t: seq<seq<nat>>)
    ensures Shaped(t, 4, 2, 4)
  {
    [[0, 1], [1, 2], [2, 3], [3, 0]]
  }
  function Quad8(): (t: seq<seq<nat>>)
    ensures Shaped(t, 4, 3, 8)
  {
    [[0, 4, 1], [1, 5, 2], [2, 6, 3], [3, 7, 0]]
  }
  function Tet4(): (t: seq<seq<nat>>)
    ensures Shaped(t, 4, 3, 4)
  {
    [[0, 2, 1], [0, 1, 3], [1, 2, 3], [2, 0, 3]]
  }
  function Tet10(): (t: seq<seq<nat>>)
    ensures Shaped(t, 4, 6, 10)
  {
    [[0, 2, 1, 6, 5, 4], [0, 1, 3, 4, 8, 7], [1, 2, 3, 5, 9, 8], [2, 0, 3, 6, 7, 9]]
  }
  function Brick8(): (t: seq<seq<nat>>)
    ensures Shaped(t, 6, 4, 8)
  {
    [[0, 3, 2, 1], [0, 1, 5, 4], [1, 2, 6, 5], [2, 3, 7, 6], [3, 0, 4, 7], [4, 5, 6, 7]]
  }
  function Brick20(): (t: seq<seq<nat>>)
    ensures Shaped(t, 6, 8, 20)
  {
    [[0, 3, 2, 1, 11, 10, 9, 8], [0, 1, 5, 4, 8, 13, 16, 12], [1, 2, 6, 5, 9, 14, 17, 13],
     [2, 3, 7, 6, 10, 15, 18, 14], [3, 0, 4, 7, 11, 12, 19, 15], [4, 5, 6, 7, 16, 17, 18, 19]]
  }
  function Brick27(): (t: seq<seq<nat>>)
    ensures Shaped(t, 6, 9, 27)
  {
    [[0, 3, 2, 1, 11, 10, 9, 8, 20], [0, 1, 5, 4, 8, 13, 16, 12, 21], [1, 2, 6, 5, 9, 14, 17, 13, 22],
     [2, 3, 7, 6, 10, 15, 18, 14, 23], [3, 0, 4, 7, 11, 12, 19, 15, 24], [4, 5, 6, 7, 16, 17, 18, 19, 25]]
  }

  /** The (type, node count) pairs that have faces. */
  predicate Supported(t: ElementType, n: nat)
  {
    || (t == Triangle && (n == 3 || n == 6))
    || (t == Quad && (n == 4 || n == 8 || n == 9))
    || (t == Tetrahedron && (n == 4 || n == 10))
    || (t == Brick && (n == 8 || n == 20 || n == 27))
  }

  /** Faces per element: three for triangles, four for quads and tetrahedra, six for bricks. */
  function FaceCount(t: ElementType): nat
  {
    match t
    case Triangle => 3
    case Quad => 4
    case Tetrahedron => 4
    case Brick => 6
    case _ => 0
  }

  /** Nodes per face of each supported variant. */
  function FaceSize(t: ElementType, n: nat): nat
  {
    match t
    case Triangle => if n == 3 then 2 else 3
    case Quad => if n == 4 then 2 else 3
    case Tetrahedron => if n == 4 then 3 else 6
    case Brick => if n == 8 then 4 else if n == 20 then 8 else 9
    case _ => 0
  }

  /** Faces of two-dimensional elements are edges; those of solids are surfaces. */
  function FaceClassOf(t: ElementType): FaceClass
  {
    if t == Triangle || t == Quad then Face2D else Face3D
  }

  /** The face class and the local node indices of each face, or the error
      raised for an unsupported (type, node count) pair. */
  function FaceTable(t: ElementType, n: nat): (r: Result<(FaceClass, seq<seq<nat>>)>)
    ensures r.Ok? <==> Supported(t, n)
    ensures r.Err? ==> r.error == NotImplementedError
    ensures r.Ok? ==> r.value.0 == FaceClassOf(t) && Initialize(r.value.0).Pass?
    ensures r.Ok? ==> |r.value.1| == FaceCount(t)
    ensures r.Ok? ==> forall f :: 0 <= f < |r.value.1| ==> |r.value.1[f]| == FaceSize(t, n)
    ensures r.Ok? ==> forall f, k :: 0 <= f < |r.value.1| && 0 <= k < |r.value.1[f]| ==> r.value.1[f][k] < n
  {
    match t
    case Triangle =>
      if n == 3 then Ok((Face2D, Tri3()))
      else if n == 6 then Ok((Face2D, Tri6()))
      else Err(NotImplementedError)
    case Quad =>
      if n == 4 then Ok((Face2D, Quad4()))
      else if n == 8 || n == 9 then Ok((Face2D, Quad8()))
      else Err(NotImplementedError)
    case Tetrahedron =>
      if n == 4 then Ok((Face3D, Tet4()))
      else if n == 10 then Ok((Face3D, Tet10()))
      else Err(NotImplementedError)
    case Brick =>
      if n == 8 then Ok((Face3D, Brick8()))
      else if n == 20 then Ok((Face3D, Brick20()))
      else if n == 27 then Ok((Face3D, Brick27()))
      else Err(NotImplementedError)
    case _ => Err(NotImplementedError)
  }

  /** Quadratic quad faces run corner, mid-side node, next corner. */
  lemma QuadMidSideFaces(n: nat, k: nat)
    requires (n == 8 || n == 9) && k < 4
    ensures FaceTable(Quad, n).Ok?
    ensures FaceTable(Quad, n).value.1[k] == [k, k + 4, (k + 1) % 4]
  {
  }

  /** Quadratic triangle and quad faces have the linear face's corners at their
      ends, with the mid-side node between them. */
  lemma PlaneFacesKeepCorners(k: nat)
    ensures k < 3 ==> [Tri6()[k][0], Tri6()[k][2]] == Tri3()[k] && Tri6()[k][1] == k + 3
    ensures k < 4 ==> [Quad8()[k][0], Quad8()[k][2]] == Quad4()[k] && Quad8()[k][1] == k + 4
  {
  }

  /** Higher-order solid faces start with the corner sequence of the linear face. */
  lemma SolidFacesStartWithCorners(k: nat)
    ensures k < 4 ==> Tet10()[k][..3] == Tet4()[k]
    ensures k < 6 ==> Brick20()[k][..4] == Brick8()[k] && Brick27()[k][..4] == Brick8()[k]
  {
  }

  /** The 27-node brick adds the face-centre node 20+k to face k of the 20-node brick. */
  lemma Brick27ExtendsBrick20(k: nat)
    requires k < 6
    ensures Brick27()[k] == Brick20()[k] + [20 + k]
  {
  }

  /** The centre node of the 27-node brick lies on no face. */
  lemma BrickCentreOnNoFace()
    ensures forall f, k :: 0 <= f < |Brick27()| && 0 <= k < |Brick27()[f]| ==> Brick27()[f][k] != 26
  {
  }

  /** The nodes a face is built from: the element's nodes at the table's indices. */
  function NodesAt<T>(nodes: seq<T>, idx: seq<nat>): (r: seq<T>)
    requires forall k :: 0 <= k < |idx| ==> idx[k] < |nodes|
    ensures |r| == |idx| && forall k :: 0 <= k < |idx| ==> r[k] == nodes[idx[k]]
  {
    seq(|idx|, k requires 0 <= k < |idx| => nodes[idx[k]])
  }

  /** The ID of face k of element e: "e.k". */
  function FaceId(e: nat, k: nat): (s: string)
    ensures s == Decimal(e) + "." + Decimal(k)
  {
    Tagged(Decimal(e) + ".", k)
  }

  /** The faces of one element have distinct IDs. */
  lemma FaceIdsDistinct(e: nat, k1: nat, k2: nat)
    requires k1 != k2
    ensures FaceId(e, k1) != FaceId(e, k2)
  {
    if FaceId(e, k1) == FaceId(e, k2) {
      TaggedInjective(Decimal(e) + ".", k1, k2);
    }
  }

  // ---------------------------------------------------------------------------
  // Transformation list.
  // ---------------------------------------------------------------------------

  /** The loop over the local node list: in-range positions receive `t`. */
  function AttachAt(ts: seq<Option<Transform>>, t: Option<Transform>, locals: seq<int>): (r: seq<Option<Transform>>)
    ensures |r| == |ts|
    decreases |locals|
  {
    if locals == [] then ts
    else AttachAt(if 0 <= locals[0] < |ts| then ts[locals[0] := t] else ts, t, locals[1..])
  }

  /** addTransformation: an empty list means every node of the element. */
  function Attached(ts: seq<Option<Transform>>, t: Option<Transform>, locals: seq<int>, n: nat): (r: seq<Option<Transform>>)
    ensures locals == [] ==> |r| == n && forall k :: 0 <= k < n ==> r[k] == t
    ensures locals != [] ==> |r| == |ts|
  {
    if locals == [] then seq(n, _ => t) else AttachAt(ts, t, locals)
  }

  /** Listed in-range positions hold `t`; every other entry is kept. */
  lemma {:induction false} AttachAtMeaning(ts: seq<Option<Transform>>, t: Option<Transform>, locals: seq<int>)
    ensures forall k :: 0 <= k < |ts| ==> AttachAt(ts, t, locals)[k] == if k in locals then t else ts[k]
    decreases |locals|
  {
    if locals != [] {
      var ts1 := if 0 <= locals[0] < |ts| then ts[locals[0] := t] else ts;
      AttachAtMeaning(ts1, t, locals[1..]);
      assert forall k :: k in locals <==> k == locals[0] || k in locals[1..];
    }
  }

  /** With an empty list every one of the n entries is `t`; with a non-empty
      list the length is kept, listed positions hold `t` and out-of-range ones
      are ignored. Passing None removes the transformation. */
  lemma AttachedMeaning(ts: seq<Option<Transform>>, t: Option<Transform>, locals: seq<int>, n: nat)
    ensures locals == [] ==> Attached(ts, t, locals, n) == seq(n, _ => t)
    ensures locals != [] ==> |Attached(ts, t, locals, n)| == |ts|
    ensures locals != [] ==> forall k :: 0 <= k < |ts| ==>
      Attached(ts, t, locals, n)[k] == if k in locals then t else ts[k]
  {
    AttachAtMeaning(ts, t, locals);
  }

  // ---------------------------------------------------------------------------
  // Stiffness transformation.
  // ---------------------------------------------------------------------------

  /** The transpose of a matrix whose width is that of its first row. */
  function Transpose(m: Matrix): (t: Matrix)
    ensures |m| > 0 ==> |t| == |m[0]|
    ensures |m| == 0 ==> t == []
    ensures Rectangular(m) ==> forall c :: 0 <= c < |m[0]| ==>
      |t[c]| == |m| && forall r :: 0 <= r < |m| ==> t[c][r] == m[r][c]
  {
    if |m| == 0 then []
    else
      seq(|m[0]|, c requires 0 <= c < |m[0]| =>
        seq(|m|, r requires 0 <= r < |m| => (if c < |m[r]| then m[r][c] else 0.0)))
  }

  predicate Rectangular(m: Matrix)
  {
    |m| > 0 && |m[0]| > 0 && forall r :: 0 <= r < |m| ==> |m[r]| == |m[0]|
  }

  /** Transposing a non-empty rectangular matrix twice gives it back. */
  lemma TransposeInvolution(m: Matrix)
    requires Rectangular(m)
    ensures Rectangular(Transpose(m)) && Transpose(Transpose(m)) == m
  {
    var t := Transpose(m);
    assert |t| == |m[0]| && |t[0]| == |m|;
    var tt := Transpose(t);
    assert |tt| == |m|;
    forall r | 0 <= r < |m|
      ensures tt[r] == m[r]
    {
      assert |tt[r]| == |t| == |m[r]|;
      forall c | 0 <= c < |m[r]|
        ensures tt[r][c] == m[r][c]
      {
        assert tt[r][c] == t[c][r];
      }
    }
  }

  /** Block (i, j) of the returned stiffness: transposed, mapped by node j,
      transposed back, mapped by node i; untouched when neither node has a
      transformation. */
  function TransformBlock(b: Matrix, i: nat, j: nat, hasT: seq<bool>, m2l: (nat, Matrix) -> Matrix): (r: Matrix)
    requires i < |hasT| && j < |hasT|
    ensures !hasT[i] && !hasT[j] ==> r == b
    ensures hasT[i] ==> exists m :: r == m2l(i, m)
  {
    if !(hasT[i] || hasT[j]) then b
    else
      var b1 := Transpose(b);
      var b2 := if hasT[j] then m2l(j, b1) else b1;
      var b3 := Transpose(b2);
      if hasT[i] then m2l(i, b3) else b3
  }

  /** A block whose two nodes have no transformation is returned as it is;
      with only node i transformed, node i's mapping is applied to the block
      itself; with only node j, its transpose is mapped and transposed back;
      with both, node j's mapping comes first and node i's last. */
  lemma TransformBlockCases(b: Matrix, i: nat, j: nat, hasT: seq<bool>, m2l: (nat, Matrix) -> Matrix)
    requires i < |hasT| && j < |hasT|
    ensures !hasT[i] && !hasT[j] ==> TransformBlock(b, i, j, hasT, m2l) == b
    ensures hasT[i] && !hasT[j] && Rectangular(b) ==> TransformBlock(b, i, j, hasT, m2l) == m2l(i, b)
    ensures !hasT[i] && hasT[j] ==> TransformBlock(b, i, j, hasT, m2l) == Transpose(m2l(j, Transpose(b)))
    ensures hasT[i] && hasT[j] ==> TransformBlock(b, i, j, hasT, m2l) == m2l(i, Transpose(m2l(j, Transpose(b))))
  {
    if hasT[i] && !hasT[j] && Rectangular(b) {
      TransposeInvolution(b);
    }
  }

  /** Whether block (i, j) is touched by getStiffness. */
  predicate Needed(hasT: seq<bool>, i: nat, j: nat)
  {
    i < |hasT| && j < |hasT| && (hasT[i] || hasT[j])
  }

  predicate Present(kt: seq<seq<Matrix>>, i: nat, j: nat)
  {
    i < |kt| && j < |kt[i]|
  }

  /** What getStiffness returns for the stored blocks `kt`, the nodes' answers
      to hasTransform, and their matrix mappings. */
  function Stiffness(kt: seq<seq<Matrix>>, hasT: seq<bool>, m2l: (nat, Matrix) -> Matrix): (r: Result<seq<seq<Matrix>>>)
    ensures r.Ok? ==> |r.value| == |kt| && forall i :: 0 <= i < |kt| ==> |r.value[i]| == |kt[i]|
    ensures r.Err? ==> r.error == IndexError
    ensures r.Err? <==> exists i, j :: 0 <= i < |hasT| && 0 <= j < |hasT| && Needed(hasT, i, j) && !Present(kt, i, j)
  {
    if exists i, j :: 0 <= i < |hasT| && 0 <= j < |hasT| && Needed(hasT, i, j) && !Present(kt, i, j) then Err(IndexError)
    else Ok(seq(|kt|, i requires 0 <= i < |kt| => seq(|kt[i]|, j requires 0 <= j < |kt[i]| =>
      if Needed(hasT, i, j) then TransformBlock(kt[i][j], i, j, hasT, m2l)
      else kt[i][j])))
  }

  /** Blocks of the stored shape that hold the transformed block wherever one
      is needed, and the stored block elsewhere, are getStiffness's result. */
  lemma StiffnessFromBlocks(kt: seq<seq<Matrix>>, hasT: seq<bool>, m2l: (nat, Matrix) -> Matrix, k: seq<seq<Matrix>>)
    requires forall a: nat, b: nat :: Needed(hasT, a, b) ==> Present(kt, a, b)
    requires |k| == |kt| && forall a :: 0 <= a < |k| ==> |k[a]| == |kt[a]|
    requires forall a, b :: 0 <= a < |k| && 0 <= b < |k[a]| ==>
      k[a][b] == if Needed(hasT, a, b) then TransformBlock(kt[a][b], a, b, hasT, m2l) else kt[a][b]
    ensures Stiffness(kt, hasT, m2l) == Ok(k)
  {
    assert !exists a, b :: 0 <= a < |hasT| && 0 <= b < |hasT| && Needed(hasT, a, b) && !Present(kt, a, b);
    var s := Stiffness(kt, hasT, m2l).value;
    forall a | 0 <= a < |k|
      ensures k[a] == s[a]
    {
      assert |s[a]| == |k[a]|;
      forall b | 0 <= b < |k[a]|
        ensures k[a][b] == s[a][b]
      {
      }
    }
    assert k == s;
  }

  /** The base updateState, run first by getStiffness: it always raises. */
  function BaseUpdateState(): (r: Outcome)
    ensures r.Fail? && r.error == NotImplementedError
  {
    Fail(NotImplementedError)
  }

  /** Without any transformation getStiffness returns the stored blocks. */
  lemma StiffnessWithoutTransforms(kt: seq<seq<Matrix>>, hasT: seq<bool>, m2l: (nat, Matrix) -> Matrix)
    requires forall k :: 0 <= k < |hasT| ==> !hasT[k]
    ensures Stiffness(kt, hasT, m2l) == Ok(kt)
  {
    var s := Stiffness(kt, hasT, m2l);
    assert s.Ok?;
    assert |s.value| == |kt|;
    forall i | 0 <= i < |kt|
      ensures s.value[i] == kt[i]
    {
      assert |s.value[i]| == |kt[i]|;
      forall j | 0 <= j < |kt[i]|
        ensures s.value[i][j] == kt[i][j]
      {
        assert !Needed(hasT, i, j);
      }
    }
    assert s.value == kt;
  }

  /** A block whose nodes carry no transformation is identical to the stored one. */
  lemma StiffnessKeepsPlainBlocks(kt: seq<seq<Matrix>>, hasT: seq<bool>, m2l: (nat, Matrix) -> Matrix, i: nat, j: nat)
    requires Stiffness(kt, hasT, m2l).Ok? && Present(kt, i, j) && !Needed(hasT, i, j)
    ensures Stiffness(kt, hasT, m2l).value[i][j] == kt[i][j]
  {
  }

  // ---------------------------------------------------------------------------
  // Element loads.
  // ---------------------------------------------------------------------------

  /** One entry of the per-node load list: None, a plain list, or an array. */
  datatype NodalLoad = NoLoad | Listed(items: seq<real>) | Vector(values: seq<real>)

  /** getLoad's conversion: arrays are mapped to local coordinates by their
      node, everything else becomes None; one entry per (node, load) pair. */
  function LocalLoads(n: nat, loads: seq<NodalLoad>, v2l: (nat, seq<real>) -> seq<real>): (r: seq<Option<seq<real>>>)
    ensures |r| == if n < |loads| then n else |loads|
  {
    seq(if n < |loads| then n else |loads|, k requires 0 <= k < |loads| =>
      if loads[k].Vector? then Some(v2l(k, loads[k].values)) else None)
  }

  /** Entries are mapped exactly where the load is an array. */
  lemma LocalLoadsMeaning(n: nat, loads: seq<NodalLoad>, v2l: (nat, seq<real>) -> seq<real>, k: nat)
    requires k < n && k < |loads|
    ensures LocalLoads(n, loads, v2l)[k].Some? <==> loads[k].Vector?
    ensures loads[k].Vector? ==> LocalLoads(n, loads, v2l)[k] == Some(v2l(k, loads[k].values))
  {
  }

  /** With the base surface-load computation every entry is None. */
  lemma BaseLoadsAreNone(n: nat, v2l: (nat, seq<real>) -> seq<real>)
    ensures LocalLoads(n, seq(n, _ => NoLoad), v2l) == seq(n, _ => None)
  {
  }

  function Zeros(n: nat): (v: seq<real>)
    ensures |v| == n && forall k :: 0 <= k < n ==> v[k] == 0.0
  {
    seq(n, _ => 0.0)
  }

  // ---------------------------------------------------------------------------
  // The element.
  // ---------------------------------------------------------------------------

  /** The faces `fs` of element `eid` over `nodes` are those of the table `tab`
      of class `cls`, in order: face k has ID "eid.k", the nodes at the
      table's indices, no traction and no flux. */
  ghost predicate FacesMatch(fs: seq<Face>, eid: nat, nodes: seq<Node>, cls: FaceClass, tab: seq<seq<nat>>)
    reads fs
  {
    && |fs| == |tab|
    && forall k :: 0 <= k < |fs| ==>
      && (forall m :: 0 <= m < |tab[k]| ==> tab[k][m] < |nodes|)
      && fs[k].Valid() && fs[k].kind == cls && fs[k].id == FaceId(eid, k)
      && fs[k].nodes == NodesAt(nodes, tab[k])
      && fs[k].load == [0.0, 0.0] && fs[k].flux == 0.0
  }

  /** A node has served the request `req` from element `e` (once or several times). */
  twostate predicate Requested(n: Node, req: seq<DofCode>, e: object)
    reads n
  {
    n.Book() == Served(old(n.Book()), req, e)
  }

  class Element {
    const id: nat
    const givenLabel: Option<string>
    const nodes: seq<Node>
    var transforms: seq<Option<Transform>>
    /** The per-node DOF codes of the last request. */
    var dofList: seq<DofCode>
    /** The index tuple each node returned. */
    var dofIdx: map<Node, seq<nat>>
    var loads: seq<NodalLoad>
    var forces: seq<seq<real>>
    var kt: seq<seq<Matrix>>
    var loadFactor: real
    /** Unset until `initialize` runs. */
    var elementType: Option<ElementType>
    /** Whether the `faces` attribute exists, i.e. createFaces has run. */
    var hasFaces: bool
    var faces: seq<Face>
    var distributedLoad: seq<real>

    /** The bookkeeping of every node, in node order. */
    ghost function Books(): (bs: seq<NodeBook>)
      reads nodes
      ensures |bs| == |nodes| && forall k :: 0 <= k < |nodes| ==> bs[k] == nodes[k].Book()
    {
      seq(|nodes|, k requires 0 <= k < |nodes| reads nodes => nodes[k].Book())
    }

    /** Every node has served the request `req` from this element, starting
        from the bookkeeping `before` (so its registry now numbers the
        requested codes too), and the element keeps the index tuple each node
        handed out. */
    ghost predicate Enrolled(req: seq<DofCode>, before: seq<NodeBook>)
      reads this`dofIdx, nodes
    {
      && |before| == |nodes|
      && forall k :: 0 <= k < |nodes| ==>
        && nodes[k].Book() == Served(before[k], req, this)
        && Registry(nodes[k].dofs, nodes[k].ndofs) == Register(before[k].reg, req)
        && nodes[k] in dofIdx && this in nodes[k].dofMaps && dofIdx[nodes[k]] == nodes[k].dofMaps[this]
    }

    /** One transformation slot and one load entry per node. */
    ghost predicate Valid()
      reads this
    {
      |transforms| == |nodes| && |loads| == |nodes|
    }

    /** The freshly allocated storage: nn zero force vectors of length nd and
        an nn x nn grid of nd x nd zero blocks. */
    ghost predicate ZeroStorage(nn: nat, nd: nat)
      reads this
    {
      && |forces| == nn && (forall k :: 0 <= k < nn ==> forces[k] == Zeros(nd))
      && |kt| == nn && (forall i :: 0 <= i < nn ==> |kt[i]| == nn)
      && forall i, j :: 0 <= i < nn && 0 <= j < nn ==>
        |kt[i][j]| == nd && forall r :: 0 <= r < nd ==> kt[i][j][r] == Zeros(nd)
    }

    /** What initialize leaves for a supported type `t` and `nd` DOFs per node:
        the faces of the type's table, a zero distributed load per node and
        the zero matrix storage. */
    ghost predicate StorageBuilt(t: ElementType, nd: nat)
      reads this, faces
    {
      && Supported(t, |nodes|)
      && FacesMatch(faces, id, nodes, FaceTable(t, |nodes|).value.0, FaceTable(t, |nodes|).value.1)
      && |faces| == FaceCount(t)
      && distributedLoad == Zeros(|nodes|)
      && ZeroStorage(|nodes|, nd)
    }

    /** Every node of the element is a valid node. */
    ghost predicate NodesValid()
      reads nodes
    {
      forall k :: 0 <= k < |nodes| ==> nodes[k].Valid()
    }

    /** A new element takes the counter's value as its ID, has no transformation
        at any node, requests the empty DOF list from every node (so no node
        gains a DOF, and each node lists the element once), and has load factor 1.0. */
    constructor (counter: IdCounter, nodes: seq<Node>, givenLabel: Option<string>)
      requires forall k :: 0 <= k < |nodes| ==> nodes[k].Valid()
      modifies counter
      modifies nodes`dofs, nodes`ndofs, nodes`order, nodes`elements, nodes`dofMaps
      ensures Valid()
      ensures id == old(counter.next) && counter.next == old(counter.next) + 1
      ensures this.nodes == nodes && this.givenLabel == givenLabel
      ensures transforms == seq(|nodes|, _ => None)
      ensures dofList == []
      ensures forall k :: 0 <= k < |nodes| ==> nodes[k].Valid()
      ensures forall k :: 0 <= k < |nodes| ==>
        nodes[k].dofs == old(nodes[k].dofs) && nodes[k].ndofs == old(nodes[k].ndofs)
      ensures forall k :: 0 <= k < |nodes| ==>
        nodes[k].dofMaps == old(nodes[k].dofMaps)[this := []] && nodes[k].elements == old(nodes[k].elements) + [this]
      ensures loads == seq(|nodes|, _ => Listed([])) && forces == [] && kt == []
      ensures loadFactor == 1.0 && elementType == None && !hasFaces
    {
      var n := counter.Take();
      id := n;
      this.nodes := nodes;
      this.givenLabel := givenLabel;
      transforms := seq(|nodes|, _ => None);
      dofList := [];
      dofIdx := map[];
      loads := seq(|nodes|, _ => Listed([]));
      forces := [];
      kt := [];
      loadFactor := 1.0;
      elementType := None;
      hasFaces := false;
      faces := [];
      distributedLoad := [];
      new;
      EnrollInNodes();
    }

    /** The empty request of the constructor: every node lists this element
        once with an empty index tuple and gains no DOF. */
    method EnrollInNodes()
      requires NodesValid()
      requires forall k :: 0 <= k < |nodes| ==> this !in nodes[k].elements
      modifies this`dofList, this`dofIdx
      modifies nodes`dofs, nodes`ndofs, nodes`order, nodes`elements, nodes`dofMaps
      ensures NodesValid()
      ensures dofList == []
      ensures forall k :: 0 <= k < |nodes| ==>
        nodes[k].dofs == old(nodes[k].dofs) && nodes[k].ndofs == old(nodes[k].ndofs)
      ensures forall k :: 0 <= k < |nodes| ==>
        nodes[k].dofMaps == old(nodes[k].dofMaps)[this := []] && nodes[k].elements == old(nodes[k].elements) + [this]
    {
      RequestDofs([]);
      forall k | 0 <= k < |nodes|
        ensures nodes[k].Book() == NodeBook(old(nodes[k].Book()).reg, old(nodes[k].order), old(nodes[k].dofMaps)[this := []], old(nodes[k].elements) + [this])
      {
        ServedEmpty(old(nodes[k].Book()), this);
      }
    }

    /** Requests the same DOF codes from every node, for this element. */
    method RequestDofs(req: seq<DofCode>)
      requires NodesValid()
      modifies this`dofList, this`dofIdx
      modifies nodes`dofs, nodes`ndofs, nodes`order, nodes`elements, nodes`dofMaps
      ensures NodesValid()
      ensures dofList == req
      ensures Enrolled(req, old(Books()))
      ensures forall k :: 0 <= k < |nodes| ==> Requested(nodes[k], req, this)
    {
      var idxs := ServeAll(req);
      dofList, dofIdx := req, idxs;
    }

    /** The fan-out loop of the request: every node serves `req` for this
        element, and the index tuples it hands out are collected over the
        element's current ones. */
    method ServeAll(req: seq<DofCode>) returns (idxs: map<Node, seq<nat>>)
      requires NodesValid()
      modifies nodes`dofs, nodes`ndofs, nodes`order, nodes`elements, nodes`dofMaps
      ensures NodesValid()
      ensures forall k :: 0 <= k < |nodes| ==>
        && Requested(nodes[k], req, this)
        && nodes[k] in idxs && this in nodes[k].dofMaps && idxs[nodes[k]] == nodes[k].dofMaps[this]
    {
      idxs := dofIdx;
      ghost var done: set<Node> := {};
      var i := 0;
      while i < |nodes|
        invariant 0 <= i <= |nodes|
        invariant forall k :: 0 <= k < i ==> nodes[k] in done
        invariant forall k :: 0 <= k < |nodes| ==>
          nodes[k].Book() == if nodes[k] in done then Served(old(nodes[k].Book()), req, this) else old(nodes[k].Book())
        invariant forall k :: 0 <= k < |nodes| && nodes[k] in done ==>
          nodes[k] in idxs && this in nodes[k].dofMaps && idxs[nodes[k]] == nodes[k].dofMaps[this]
      {
        var node := nodes[i];
        assert old(node.Valid());
        if node in done {
          ServedOk(old(node.Book()), req, this);
        }
        var idx := ServeOne(node, req, old(node.Book()), node in done);
        idxs := idxs[node := idx];
        done := done + {node};
        i := i + 1;
      }
      forall k | 0 <= k < |nodes|
        ensures nodes[k].Valid()
      {
        assert old(nodes[k].Valid());
        ServedOk(old(nodes[k].Book()), req, this);
      }
    }

    /** One pass of the fan-out loop, on a node that may have served the
        request already. */
    method ServeOne(node: Node, req: seq<DofCode>, ghost b0: NodeBook, ghost again: bool) returns (idx: seq<nat>)
      requires node.Valid()
      requires node.Book() == if again then Served(b0, req, this) else b0
      modifies node`dofs, node`ndofs, node`order, node`elements, node`dofMaps
      ensures node.Book() == Served(b0, req, this)
      ensures this in node.dofMaps && idx == node.dofMaps[this]
    {
      idx := node.Request(req, this);
      if again {
        ServedTwice(b0, req, this);
      }
    }

    function GetDofs(): (codes: seq<DofCode>)
      reads this
      ensures codes == dofList
    {
      dofList
    }

    /** (Re-)allocates one zero force vector per node and an nnodes x nnodes
        grid of ndofs x ndofs zero blocks; returns (nnodes, ndofs). */
    method ResetMatrices() returns (nn: nat, nd: nat)
      modifies this`forces, this`kt
      ensures nn == |nodes| && nd == |dofList|
      ensures ZeroStorage(nn, nd)
    {
      nn := |nodes|;
      nd := |dofList|;
      forces := seq(nn, _ => Zeros(nd));
      kt := seq(nn, _ => seq(nn, _ => seq(nd, _ => Zeros(nd))));
    }

    /** Empties the face list and rebuilds it from the face table. */
    method CreateFaces() returns (r: Outcome)
      modifies this`faces, this`hasFaces
      ensures hasFaces
      ensures elementType == None ==> r == Fail(AttributeError) && faces == []
      ensures elementType.Some? && FaceTable(elementType.value, |nodes|).Err? ==>
        r == Fail(NotImplementedError) && faces == []
      ensures elementType.Some? && FaceTable(elementType.value, |nodes|).Ok? ==>
        var tab := FaceTable(elementType.value, |nodes|).value;
        && r == Pass
        && FacesMatch(faces, id, nodes, tab.0, tab.1)
        && forall k :: 0 <= k < |faces| ==> fresh(faces[k])
    {
      faces := [];
      hasFaces := true;
      if elementType == None {
        return Fail(AttributeError);
      }
      var table := FaceTable(elementType.value, |nodes|);
      if table.Err? {
        return Fail(table.error);
      }
      var cls, tab := table.value.0, table.value.1;
      var k := 0;
      while k < |tab|
        invariant 0 <= k <= |tab|
        invariant hasFaces
        invariant |faces| == k
        invariant forall m :: 0 <= m < k ==>
          && fresh(faces[m]) && faces[m].Valid()
          && faces[m].kind == cls
          && faces[m].id == FaceId(id, m)
          && faces[m].nodes == NodesAt(nodes, tab[m])
          && faces[m].load == [0.0, 0.0] && faces[m].flux == 0.0
      {
        var f := new Face(FaceId(id, k), cls, NodesAt(nodes, tab[k]));
        faces := faces + [f];
        k := k + 1;
      }
      r := Pass;
    }

    /** Sets the traction of every face to [0, 0]; raises AttributeError when the
        faces were never created. */
    method ResetLoads() returns (r: Outcome)
      modifies faces
      ensures !hasFaces ==> r == Fail(AttributeError)
      ensures hasFaces ==> r == Pass && forall k :: 0 <= k < |faces| ==> faces[k].load == [0.0, 0.0]
      ensures forall k :: 0 <= k < |faces| ==> faces[k].flux == old(faces[k].flux)
    {
      if !hasFaces {
        return Fail(AttributeError);
      }
      var i := 0;
      while i < |faces|
        invariant 0 <= i <= |faces|
        invariant forall k :: 0 <= k < |faces| ==> faces[k].flux == old(faces[k].flux)
        invariant forall k :: 0 <= k < i ==> faces[k].load == [0.0, 0.0]
      {
        faces[i].SetLoad(0.0, 0.0);
        i := i + 1;
      }
      r := Pass;
    }

    /** Sets the type, requests the DOFs from every node, builds the faces,
        zeroes the distributed load and allocates the matrices. An empty DOF
        list raises TypeError before anything else is built. */
    method Initialize(t: ElementType, req: seq<DofCode>) returns (r: Outcome)
      requires NodesValid()
      modifies this`elementType, this`dofList, this`dofIdx, this`faces, this`hasFaces
      modifies this`distributedLoad, this`forces, this`kt
      modifies nodes`dofs, nodes`ndofs, nodes`order, nodes`elements, nodes`dofMaps
      ensures NodesValid()
      ensures elementType == Some(t)
      ensures req == [] ==>
        && r == Fail(TypeError) && dofList == old(dofList) && dofIdx == old(dofIdx)
        && faces == old(faces) && hasFaces == old(hasFaces)
        && kt == old(kt) && forces == old(forces) && distributedLoad == old(distributedLoad)
        && forall k :: 0 <= k < |nodes| ==> nodes[k].Book() == old(nodes[k].Book())
      ensures req != [] ==> dofList == req && GetDofs() == req && hasFaces
      ensures req != [] ==> Enrolled(req, old(Books()))
      ensures req != [] && !Supported(t, |nodes|) ==>
        && r == Fail(NotImplementedError) && faces == []
        && kt == old(kt) && forces == old(forces) && distributedLoad == old(distributedLoad)
      ensures req != [] && Supported(t, |nodes|) ==>
        && r == Pass && StorageBuilt(t, |req|)
        && forall k :: 0 <= k < |faces| ==> fresh(faces[k])
    {
      if req == [] {
        elementType := Some(t);
        return Fail(TypeError);
      }
      // The type is recorded before the request in the source; the request
      // neither reads nor writes it, so recording it with the faces is the
      // same.
      RequestDofs(req);
      r := BuildStorage(t);
    }

    /** The part of initialize after the dof request: records the type, then
        builds the faces, the zero distributed load and the zero matrices; a
        face table failure stops it after the faces were emptied. */
    method BuildStorage(t: ElementType) returns (r: Outcome)
      modifies this`elementType, this`faces, this`hasFaces, this`distributedLoad, this`forces, this`kt
      ensures elementType == Some(t) && hasFaces
      ensures !Supported(t, |nodes|) ==>
        && r == Fail(NotImplementedError) && faces == []
        && kt == old(kt) && forces == old(forces) && distributedLoad == old(distributedLoad)
      ensures Supported(t, |nodes|) ==>
        && r == Pass && StorageBuilt(t, |dofList|)
        && forall k :: 0 <= k < |faces| ==> fresh(faces[k])
    {
      elementType := Some(t);
      r := CreateFaces();
      if r.Fail? {
        return;
      }
      distributedLoad := Zeros(|nodes|);
      var nn, nd := ResetMatrices();
    }

    /** The corrected transformation attachment: None removes. */
    method AddTransformation(t: Option<Transform>, locals: seq<int>)
      requires Valid()
      modifies this`transforms
      ensures Valid()
      ensures transforms == Attached(old(transforms), t, locals, |nodes|)
    {
      if locals != [] {
        var i := 0;
        while i < |locals|
          invariant 0 <= i <= |locals|
          invariant AttachAt(old(transforms), t, locals) == AttachAt(transforms, t, locals[i..])
        {
          assert locals[i..][0] == locals[i] && locals[i..][1..] == locals[i + 1..];
          if 0 <= locals[i] < |transforms| {
            transforms := transforms[locals[i] := t];
          }
          i := i + 1;
        }
      } else {
        transforms := seq(|nodes|, _ => t);
      }
    }

    /** addTransformation as written: it registers the element with T before each
        assignment, which raises AttributeError when T is None, so None can never
        be attached, and nothing is changed by such a call. */
    method AddTransformationAsWritten(t: Option<Transform>, locals: seq<int>) returns (r: Outcome)
      requires Valid()
      modifies this`transforms
      ensures Valid()
      ensures t.None? && (locals == [] || exists k :: 0 <= k < |locals| && 0 <= locals[k] < |old(transforms)|) ==>
        r == Fail(AttributeError) && transforms == old(transforms)
      ensures t.Some? || !(locals == [] || exists k :: 0 <= k < |locals| && 0 <= locals[k] < |old(transforms)|) ==>
        r == Pass && transforms == Attached(old(transforms), t, locals, |nodes|)
    {
      if locals != [] {
        var i := 0;
        while i < |locals|
          invariant 0 <= i <= |locals|
          invariant AttachAt(old(transforms), t, locals) == AttachAt(transforms, t, locals[i..])
          invariant t.None? ==> transforms == old(transforms) && forall k :: 0 <= k < i ==> !(0 <= locals[k] < |transforms|)
        {
          assert locals[i..][0] == locals[i] && locals[i..][1..] == locals[i + 1..];
          if 0 <= locals[i] < |transforms| {
            if t.None? {
              return Fail(AttributeError);
            }
            transforms := transforms[locals[i] := t];
          }
          i := i + 1;
        }
      } else {
        if t.None? {
          return Fail(AttributeError);
        }
        transforms := seq(|nodes|, _ => t);
      }
      r := Pass;
    }

    /** The stiffness as returned to the assembler: the subclass's updateState
        runs first; then a copy of the stored blocks is transformed block by
        block. The stored blocks are not changed. */
    method GetStiffness(update: Outcome, hasT: seq<bool>, m2l: (nat, Matrix) -> Matrix) returns (r: Result<seq<seq<Matrix>>>)
      requires |hasT| == |nodes|
      ensures update.Fail? ==> r == Err(update.error)
      ensures update.Pass? ==> r == Stiffness(kt, hasT, m2l)
    {
      if update.Fail? {
        return Err(update.error);
      }
      var k := kt;
      var n := |nodes|;
      var i := 0;
      while i < n
        invariant 0 <= i <= n
        invariant |k| == |kt| && forall a :: 0 <= a < |k| ==> |k[a]| == |kt[a]|
        invariant forall a, b :: 0 <= a < |k| && 0 <= b < |k[a]| ==>
          k[a][b] == if a < i && Needed(hasT, a, b)
            then TransformBlock(kt[a][b], a, b, hasT, m2l)
            else kt[a][b]
        invariant forall a: nat, b: nat :: a < i && Needed(hasT, a, b) ==> Present(kt, a, b)
      {
        var j := 0;
        while j < n
          invariant 0 <= j <= n
          invariant |k| == |kt| && forall a :: 0 <= a < |k| ==> |k[a]| == |kt[a]|
          invariant forall a, b :: 0 <= a < |k| && 0 <= b < |k[a]| ==>
            k[a][b] == if (a < i || (a == i && b < j)) && Needed(hasT, a, b)
              then TransformBlock(kt[a][b], a, b, hasT, m2l)
              else kt[a][b]
          invariant forall a: nat, b: nat :: (a < i || (a == i && b < j)) && Needed(hasT, a, b) ==> Present(kt, a, b)
        {
          if hasT[i] || hasT[j] {
            if i >= |k| || j >= |k[i]| {
              assert Needed(hasT, i, j) && !Present(kt, i, j);
              assert Stiffness(kt, hasT, m2l) == Err(IndexError);
              return Err(IndexError);
            }
            var b := TransformedBlock(k[i][j], i, j, hasT, m2l);
            k := k[i := k[i][j := b]];
          }
          j := j + 1;
        }
        i := i + 1;
      }
      StiffnessFromBlocks(kt, hasT, m2l, k);
      r := Ok(k);
    }

    /** One block of getStiffness's loop: transposed, mapped by node j,
        transposed back, mapped by node i. */
    static method TransformedBlock(blk: Matrix, i: nat, j: nat, hasT: seq<bool>, m2l: (nat, Matrix) -> Matrix) returns (b: Matrix)
      requires i < |hasT| && j < |hasT| && (hasT[i] || hasT[j])
      ensures b == TransformBlock(blk, i, j, hasT, m2l)
    {
      b := Transpose(blk);
      if hasT[j] {
        b := m2l(j, b);
      }
      b := Transpose(b);
      if hasT[i] {
        b := m2l(i, b);
      }
    }

    /** The base surface-load computation: no load at any node. */
    method ComputeSurfaceLoads()
      requires Valid()
      modifies this`loads
      ensures Valid()
      ensures loads == seq(|nodes|, _ => NoLoad)
    {
      loads := seq(|nodes|, _ => NoLoad);
    }

    /** The element loads in each node's local coordinates. The source's
        `apply_load_factor` argument is accepted and, as there, not used. */
    method GetLoad(applyLoadFactor: bool, v2l: (nat, seq<real>) -> seq<real>) returns (r: seq<Option<seq<real>>>)
      requires Valid()
      modifies this`loads
      ensures Valid()
      ensures loads == seq(|nodes|, _ => NoLoad)
      ensures r == LocalLoads(|nodes|, loads, v2l)
      ensures r == seq(|nodes|, _ => None)
    {
      ComputeSurfaceLoads();
      r := LocalizeLoads(|nodes|, loads, v2l);
      BaseLoadsAreNone(|nodes|, v2l);
    }

    /** The conversion loop of getLoad over the (node, load) pairs. */
    static method LocalizeLoads(n: nat, loads: seq<NodalLoad>, v2l: (nat, seq<real>) -> seq<real>) returns (r: seq<Option<seq<real>>>)
      ensures r == LocalLoads(n, loads, v2l)
    {
      r := [];
      var k := 0;
      while k < n && k < |loads|
        invariant 0 <= k <= n && k <= |loads|
        invariant r == LocalLoads(k, loads, v2l)
      {
        if loads[k].Vector? {
          r := r + [Some(v2l(k, loads[k].values))];
        } else {
          r := r + [None];
        }
        k := k + 1;
      }
    }

    /** "Elem_" and the element's number; it mirrors `Node.GetID`, because the
        source writes the same rendering once in each class. */
    function GetID(): (s: string)
      ensures |s| > 5 && s[..5] == "Elem_"
      ensures s[5..] == Decimal(id)
    {
      Tagged("Elem_", id)
    }

    /** The label when one is set and non-empty, otherwise the ID string. */
    function GetLabel(): (s: string)
      ensures givenLabel.Some? && givenLabel.value != "" ==> s == givenLabel.value
      ensures !(givenLabel.Some? && givenLabel.value != "") ==> s == GetID()
    {
      if givenLabel.Some? && givenLabel.value != "" then givenLabel.value else GetID()
    }

    method SetLoadFactor(lam: real)
      modifies this`loadFactor
      ensures loadFactor == lam
    {
      loadFactor := lam;
    }
  }

  /** Elements with distinct IDs have distinct ID strings; the element twin
      of `NodeIdsDistinct`, for the element's own `getID`. */
  lemma ElementIdsDistinct(a: Element, b: Element)
    requires a.id != b.id
    ensures a.GetID() != b.GetID()
  {
    if a.GetID() == b.GetID() {
      TaggedInjective("Elem_", a.id, b.id);
    }
  }

  /** Calling createFaces twice gives the same number of faces as calling it
      once: the list is emptied first. */
  method CreateFacesTwice(e: Element) returns (n1: nat, n2: nat)
    requires e.elementType.Some? && Supported(e.elementType.value, |e.nodes|)
    modifies e
    ensures n1 == n2 == FaceCount(old(e.elementType).value)
  {
    var r1 := e.CreateFaces();
    n1 := |e.faces|;
    var r2 := e.CreateFaces();
    n2 := |e.faces|;
  }
}
