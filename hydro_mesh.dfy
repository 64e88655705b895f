// The data the hydro kernels work on: an unstructured mesh given by its
// cell-to-face and face-to-cell connectivity and its geometry, the vectors of
// conserved quantities (state and flux), and the equation-of-state routines,
// which are supplied as opaque functions.
module HydroMesh {
  import opened Sums

  /** A cell's solution state (density, momentum, energy, ... in the equations' layout). */
  type State = seq<real>
  /** A face flux: one entry per conserved quantity. */
  type Flux = seq<real>
  /** A point or a direction in space. */
  type Vector = seq<real>

  /** The primitive quantities an initial-condition function produces. */
  datatype Primitives = Primitives(density: real, velocity: Vector, pressure: real)

  datatype Error =
    | InfiniteDeltaT
    | NegativeDensityOrInternalEnergy(cell: nat)

  datatype Result<T> = Ok(value: T) | Err(error: Error)

  datatype Outcome = Pass | Fail(error: Error)

  /**
   * The equations and the equation of state. n is the number of conserved
   * quantities (the length of every flux). The equation of state is captured
   * inside the two update_state_from_* closures that take it.
   */
  datatype Eqns = Eqns(
    n: nat,
    fastestWavespeed: (State, Vector) -> real,
    fluxFunction: (State, State, Vector) -> Flux,
    boundaryFlux: (State, Vector) -> Flux,
    updateStateFromFlux: (State, Flux) -> State,
    updateStateFromEnergy: State -> State,
    updateStateFromPressure: State -> State,
    assignPrimitives: (State, Primitives) -> State,
    density: State -> real,
    internalEnergy: State -> real)
  {
    /** Both flux routines deliver n conserved quantities. */
    ghost predicate FluxShaped()
    {
      (forall wl, wr, nf :: |fluxFunction(wl, wr, nf)| == n) &&
      (forall w, nf :: |boundaryFlux(w, nf)| == n)
    }
  }

  /**
   * Cells are 0 .. |cellFaces| - 1 and faces 0 .. |faceCells| - 1. The owned
   * lists are the cells and faces this process iterates over.
   */
  datatype Mesh = Mesh(
    cellFaces: seq<seq<nat>>,
    faceCells: seq<seq<nat>>,
    volume: seq<real>,
    centroid: seq<Vector>,
    area: seq<real>,
    normal: seq<Vector>,
    ownedCells: seq<nat>,
    ownedFaces: seq<nat>)
  {
    function NumCells(): nat { |cellFaces| }

    function NumFaces(): nat { |faceCells| }

    /**
     * Geometry for every entity, indices in range, one or two cells beside
     * every face, positive volumes and areas, and each owned cell listed once.
     */
    predicate Valid()
    {
      |volume| == |cellFaces| && |centroid| == |cellFaces| &&
      |area| == |faceCells| && |normal| == |faceCells| &&
      (forall c :: 0 <= c < |cellFaces| ==> volume[c] > 0.0) &&
      (forall c, i :: 0 <= c < |cellFaces| && 0 <= i < |cellFaces[c]| ==> cellFaces[c][i] < |faceCells|) &&
      (forall f :: 0 <= f < |faceCells| ==> area[f] > 0.0 && 1 <= |faceCells[f]| <= 2) &&
      (forall f, i :: 0 <= f < |faceCells| && 0 <= i < |faceCells[f]| ==> faceCells[f][i] < |cellFaces|) &&
      (forall i :: 0 <= i < |ownedCells| ==> ownedCells[i] < |cellFaces|) &&
      Distinct(ownedCells) &&
      (forall i :: 0 <= i < |ownedFaces| ==> ownedFaces[i] < |faceCells|)
    }

    /**
     * The two connectivities describe the same incidence, no cell lists a face
     * twice, and the two cells beside an interior face are different.
     */
    predicate Conforming()
    {
      Valid() &&
      (forall c, f :: 0 <= c < |cellFaces| && 0 <= f < |faceCells| ==>
         (f in cellFaces[c] <==> c in faceCells[f])) &&
      (forall c :: 0 <= c < |cellFaces| ==> Distinct(cellFaces[c])) &&
      (forall f :: 0 <= f < |faceCells| ==> Distinct(faceCells[f]))
    }
  }

  /** Every flux in fl has n entries. */
  predicate Shaped(fl: seq<Flux>, n: nat)
  {
    forall f :: 0 <= f < |fl| ==> |fl[f]| == n
  }

  // Component-wise arithmetic on flux vectors.

  function Zero(n: nat): (z: Flux)
    ensures |z| == n
    ensures forall k :: 0 <= k < n ==> z[k] == 0.0
  {
    seq(n, k => 0.0)
  }

  function VecAdd(a: Flux, b: Flux): (r: Flux)
    requires |a| == |b|
    ensures |r| == |a|
    ensures forall k :: 0 <= k < |a| ==> r[k] == a[k] + b[k]
  {
    seq(|a|, k requires 0 <= k < |a| => a[k] + b[k])
  }

  function VecSub(a: Flux, b: Flux): (r: Flux)
    requires |a| == |b|
    ensures |r| == |a|
    ensures forall k :: 0 <= k < |a| ==> r[k] == a[k] - b[k]
  {
    seq(|a|, k requires 0 <= k < |a| => a[k] - b[k])
  }

  function VecNeg(a: Flux): (r: Flux)
    ensures |r| == |a|
    ensures forall k :: 0 <= k < |a| ==> r[k] == -a[k]
  {
    seq(|a|, k requires 0 <= k < |a| => -a[k])
  }

  function VecScale(s: real, a: Flux): (r: Flux)
    ensures |r| == |a|
    ensures forall k :: 0 <= k < |a| ==> r[k] == s * a[k]
  {
    seq(|a|, k requires 0 <= k < |a| => s * a[k])
  }

  /** Subtracting is adding the negation. */
  lemma SubIsAddNeg(a: Flux, b: Flux)
    requires |a| == |b|
    ensures VecSub(a, b) == VecAdd(a, VecNeg(b))
  {
  }
}
