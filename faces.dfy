/** One face of a 2D or 3D element: its nodes, its surface traction and its
    surface flux. The concrete face kinds supply `initialize` and the nodal
    force computations; the base kind supplies none of them. */
module Faces {
  import opened Outcomes
  import opened Nodes

  /** The class a face is built from: the abstract base, or one of the two
      concrete kinds whose own code is not part of this model. */
  datatype FaceClass = BaseFace | Face2D | Face3D

  /** The virtual `initialize` run by the constructor: the base raises. */
  function Initialize(kind: FaceClass): (r: Outcome)
    ensures r.Fail? <==> kind == BaseFace
    ensures r.Fail? ==> r.error == NotImplementedError
  {
    if kind == BaseFace then Fail(NotImplementedError) else Pass
  }

  /** The stored flux: an out-flux is stored as a negative in-flux. */
  function InFlux(qn: real, outflux: bool): (q: real)
    ensures outflux ==> q == -qn
    ensures !outflux ==> q == qn
  {
    if outflux then -qn else qn
  }

  /** Passing an out-flux is the same as passing its negation as an in-flux. */
  lemma OutFluxIsNegatedInFlux(qn: real)
    ensures InFlux(qn, true) == InFlux(-qn, false)
    ensures InFlux(InFlux(qn, true), true) == qn
  {
  }

  class Face {
    const id: string
    const kind: FaceClass
    const nodes: seq<Node>
    const numNodes: nat
    /** Spatial dimension: number of coordinates of the first node, or 0. */
    const dim: nat
    /** Surface traction in local coordinates: [normal, shear]. */
    var load: seq<real>
    /** Surface in-flux. */
    var flux: real

    ghost predicate Valid()
      reads this
    {
      && kind != BaseFace
      && numNodes == |nodes|
      && dim == (if |nodes| > 0 then |nodes[0].pos| else 0)
      && |load| == 2
    }

    /** Only a concrete kind can be built: the base `initialize` raises. */
    constructor (id: string, kind: FaceClass, nodes: seq<Node>)
      requires Initialize(kind).Pass?
      ensures Valid()
      ensures this.id == id && this.kind == kind && this.nodes == nodes
      ensures load == [0.0, 0.0] && flux == 0.0
    {
      this.id := id;
      this.kind := kind;
      this.nodes := nodes;
      numNodes := |nodes|;
      dim := if |nodes| > 0 then |nodes[0].pos| else 0;
      load := [0.0, 0.0];
      flux := 0.0;
    }

    method SetLoad(pn: real, ps: real)
      modifies this`load
      ensures load == [pn, ps]
    {
      load := [pn, ps];
    }

    method SetFlux(qn: real, outflux: bool)
      modifies this`flux
      ensures flux == InFlux(qn, outflux)
    {
      if outflux {
        flux := -qn;
      } else {
        flux := qn;
      }
    }
  }

  /** Construction through the class's `initialize`: the base kind fails with
      NotImplementedError and yields no face. */
  method Create(id: string, kind: FaceClass, nodes: seq<Node>) returns (r: Result<Face>)
    ensures r.Err? <==> kind == BaseFace
    ensures r.Err? ==> r.error == NotImplementedError
    ensures r.Ok? ==> fresh(r.value) && r.value.Valid() && r.value.nodes == nodes && r.value.id == id
    ensures r.Ok? ==> r.value.load == [0.0, 0.0] && r.value.flux == 0.0
    ensures r.Ok? ==> r.value.numNodes == |nodes| && r.value.dim == (if |nodes| > 0 then |nodes[0].pos| else 0)
  {
    var init := Initialize(kind);
    if init.Fail? {
      return Err(init.error);
    }
    var f := new Face(id, kind, nodes);
    r := Ok(f);
  }

  /** The virtual members the base class leaves to its subclasses. */
  datatype Virtual = ComputeNodalForces | ComputeNodalFlux | IsFace(x: seq<real>, n: seq<real>)

  /** Each of them raises NotImplementedError in the base class. */
  function BaseVirtual(m: Virtual): (r: Outcome)
    ensures r.Fail? && r.error == NotImplementedError
  {
    Fail(NotImplementedError)
  }
}
