// The sequential bodies of the four solver steps of the finite-volume hydro
// application: setting initial conditions, choosing the stable time step,
// evaluating the face fluxes and applying the conservative update. Each step
// is a method over the state and flux arrays; the functions next to it say
// what the step computes, and the methods are proved against them.
module HydroTasks {
  import opened Sums
  import opened HydroMesh

  //--------------------------------------------------------------------------
  // initial_conditions
  //--------------------------------------------------------------------------

  /** A freshly initialised state: primitives from ics at the centroid, then the EOS completion. */
  function InitialState(eq: Eqns, ics: (Vector, real) -> Primitives, x: Vector, t: real, u: State): State
  {
    eq.updateStateFromPressure(eq.assignPrimitives(u, ics(x, t)))
  }

  /**
   * Writes every owned cell's state from the initial-condition function at its
   * centroid and the solution time; no other cell changes.
   */
  method InitialConditions(m: Mesh, eq: Eqns, ics: (Vector, real) -> Primitives, solnTime: real, U: array<State>)
    requires m.Valid() && U.Length == m.NumCells()
    modifies U
    ensures forall c :: 0 <= c < U.Length ==>
      U[c] == if c in m.ownedCells then InitialState(eq, ics, m.centroid[c], solnTime, old(U[c])) else old(U[c])
  {
    var i := 0;
    while i < |m.ownedCells|
      invariant 0 <= i <= |m.ownedCells|
      invariant forall c :: 0 <= c < U.Length ==>
        U[c] == if c in m.ownedCells[..i] then InitialState(eq, ics, m.centroid[c], solnTime, old(U[c])) else old(U[c])
    {
      var c := m.ownedCells[i];
      assert c !in m.ownedCells[..i];
      U[c] := eq.assignPrimitives(U[c], ics(m.centroid[c], solnTime));
      U[c] := eq.updateStateFromPressure(U[c]);
      assert m.ownedCells[..i + 1] == m.ownedCells[..i] + [c];
      i := i + 1;
    }
    assert m.ownedCells[..i] == m.ownedCells;
  }

  //--------------------------------------------------------------------------
  // evaluate_time_step
  //--------------------------------------------------------------------------

  /** The inverse time scale of cell c across face f: wavespeed over (volume / area). */
  function Ratio(m: Mesh, eq: Eqns, w: State, c: nat, f: nat): real
    requires m.Valid() && c < m.NumCells() && f < m.NumFaces()
  {
    var deltaX := m.volume[c] / m.area[f];
    eq.fastestWavespeed(w, m.normal[f]) / deltaX
  }

  /**
   * The stable time step: the reciprocal of the largest inverse time scale over
   * every owned cell and each of its faces. It is positive, no (cell, face) pair
   * has a larger inverse time scale, some pair attains it, and the step fails
   * with InfiniteDeltaT exactly when no pair has a positive one.
   */
  method EvaluateTimeStep(m: Mesh, eq: Eqns, U: array<State>) returns (r: Result<real>)
    requires m.Valid() && U.Length == m.NumCells()
    ensures r.Ok? ==> r.value > 0.0
    ensures r.Ok? ==> forall c, f :: c in m.ownedCells && f in m.cellFaces[c] ==>
      Ratio(m, eq, U[c], c, f) <= 1.0 / r.value
    ensures r.Ok? ==> (exists c, f :: c in m.ownedCells && f in m.cellFaces[c] &&
                                      Ratio(m, eq, U[c], c, f) == 1.0 / r.value)
    ensures r.Err? <==> forall c, f :: c in m.ownedCells && f in m.cellFaces[c] ==>
      Ratio(m, eq, U[c], c, f) <= 0.0
    ensures r.Err? ==> r.error == InfiniteDeltaT
  {
    var dtInv := 0.0;
    ghost var wc: nat, wf: nat := 0, 0;
    var i := 0;
    while i < |m.ownedCells|
      invariant 0 <= i <= |m.ownedCells|
      invariant dtInv >= 0.0
      invariant forall c, f :: c in m.ownedCells[..i] && f in m.cellFaces[c] ==>
        Ratio(m, eq, U[c], c, f) <= dtInv
      invariant dtInv > 0.0 ==> (wc in m.ownedCells && wf in m.cellFaces[wc] &&
                                 Ratio(m, eq, U[wc], wc, wf) == dtInv)
    {
      var c := m.ownedCells[i];
      var faces := m.cellFaces[c];
      var j := 0;
      while j < |faces|
        invariant 0 <= j <= |faces|
        invariant dtInv >= 0.0
        invariant forall c', f :: c' in m.ownedCells[..i] && f in m.cellFaces[c'] ==>
          Ratio(m, eq, U[c'], c', f) <= dtInv
        invariant forall f :: f in faces[..j] ==> Ratio(m, eq, U[c], c, f) <= dtInv
        invariant dtInv > 0.0 ==> (wc in m.ownedCells && wf in m.cellFaces[wc] &&
                                   Ratio(m, eq, U[wc], wc, wf) == dtInv)
      {
        var f := faces[j];
        var deltaX := m.volume[c] / m.area[f];
        var dti := eq.fastestWavespeed(U[c], m.normal[f]) / deltaX;
        // std::max(dti, dt_inv) keeps dt_inv only when dti is smaller
        if !(dti < dtInv) {
          dtInv := dti;
          wc, wf := c, f;
        }
        assert faces[..j + 1] == faces[..j] + [f];
        j := j + 1;
      }
      assert faces[..j] == faces;
      assert m.ownedCells[..i + 1] == m.ownedCells[..i] + [c];
      i := i + 1;
    }
    assert m.ownedCells[..i] == m.ownedCells;
    if dtInv <= 0.0 {
      return Err(InfiniteDeltaT);
    }
    r := Ok(1.0 / dtInv);
    ReciprocalInvolutive(dtInv);
  }

  lemma ReciprocalInvolutive(x: real)
    requires x > 0.0
    ensures 1.0 / x > 0.0 && 1.0 / (1.0 / x) == x
  {
  }

  //--------------------------------------------------------------------------
  // evaluate_fluxes
  //--------------------------------------------------------------------------

  /**
   * The area-weighted flux through face f from the states u: the Riemann flux
   * of the two neighbours for an interior face, the boundary flux of the only
   * neighbour otherwise.
   */
  function FaceFlux(m: Mesh, eq: Eqns, u: seq<State>, f: nat): Flux
    requires m.Valid() && |u| == m.NumCells() && f < m.NumFaces()
  {
    var cells := m.faceCells[f];
    var wLeft := u[cells[0]];
    var raw := if |cells| == 2 then eq.fluxFunction(wLeft, u[cells[1]], m.normal[f])
               else eq.boundaryFlux(wLeft, m.normal[f]);
    VecScale(m.area[f], raw)
  }

  /** Writes the area-weighted flux of every owned face; other faces keep their flux. */
  method EvaluateFluxes(m: Mesh, eq: Eqns, U: array<State>, flux: array<Flux>)
    requires m.Valid() && U.Length == m.NumCells() && flux.Length == m.NumFaces()
    requires U != flux
    modifies flux
    ensures forall f :: 0 <= f < flux.Length ==>
      flux[f] == if f in m.ownedFaces then FaceFlux(m, eq, U[..], f) else old(flux[f])
  {
    var i := 0;
    while i < |m.ownedFaces|
      invariant 0 <= i <= |m.ownedFaces|
      invariant forall f :: 0 <= f < flux.Length ==>
        flux[f] == if f in m.ownedFaces[..i] then FaceFlux(m, eq, U[..], f) else old(flux[f])
    {
      var f := m.ownedFaces[i];
      var cells := m.faceCells[f];
      var wLeft := U[cells[0]];
      if |cells| == 2 {
        var wRight := U[cells[1]];
        flux[f] := eq.fluxFunction(wLeft, wRight, m.normal[f]);
      } else {
        flux[f] := eq.boundaryFlux(wLeft, m.normal[f]);
      }
      flux[f] := VecScale(m.area[f], flux[f]);
      assert m.ownedFaces[..i + 1] == m.ownedFaces[..i] + [f];
      i := i + 1;
    }
    assert m.ownedFaces[..i] == m.ownedFaces;
  }

  /** With shape-preserving flux routines every face flux has one entry per conserved quantity. */
  lemma FaceFluxShaped(m: Mesh, eq: Eqns, u: seq<State>, f: nat)
    requires m.Valid() && |u| == m.NumCells() && f < m.NumFaces()
    requires eq.FluxShaped()
    ensures |FaceFlux(m, eq, u, f)| == eq.n
  {
  }

  //--------------------------------------------------------------------------
  // apply_update
  //--------------------------------------------------------------------------

  /** What face f contributes to cell c: the flux leaves its first neighbour and enters the other. */
  function Contribution(m: Mesh, fl: seq<Flux>, c: nat, f: nat): (r: Flux)
    requires m.Valid() && |fl| == m.NumFaces() && f < m.NumFaces()
    ensures |r| == |fl[f]|
  {
    if m.faceCells[f][0] == c then VecNeg(fl[f]) else fl[f]
  }

  /** The sum of the contributions of the faces fs to cell c. */
  function SignedSum(m: Mesh, fl: seq<Flux>, n: nat, c: nat, fs: seq<nat>): (r: Flux)
    requires m.Valid() && |fl| == m.NumFaces() && Shaped(fl, n)
    requires forall i :: 0 <= i < |fs| ==> fs[i] < m.NumFaces()
    ensures |r| == n
  {
    if |fs| == 0 then Zero(n)
    else VecAdd(SignedSum(m, fl, n, c, fs[..|fs| - 1]), Contribution(m, fl, c, fs[|fs| - 1]))
  }

  /** The increment of cell c: the net face contribution times dt over the cell volume. */
  function Increment(m: Mesh, fl: seq<Flux>, n: nat, dt: real, c: nat): (r: Flux)
    requires m.Valid() && |fl| == m.NumFaces() && Shaped(fl, n) && c < m.NumCells()
    ensures |r| == n
  {
    VecScale(dt / m.volume[c], SignedSum(m, fl, n, c, m.cellFaces[c]))
  }

  /** The state of cell c after the update: conserved quantities first, then the EOS completion. */
  function UpdatedState(m: Mesh, eq: Eqns, fl: seq<Flux>, dt: real, c: nat, u: State): State
    requires m.Valid() && |fl| == m.NumFaces() && Shaped(fl, eq.n) && c < m.NumCells()
  {
    eq.updateStateFromEnergy(eq.updateStateFromFlux(u, Increment(m, fl, eq.n, dt, c)))
  }

  /** The positivity check: neither internal energy nor density is negative. */
  predicate Admissible(eq: Eqns, u: State)
  {
    !(eq.internalEnergy(u) < 0.0 || eq.density(u) < 0.0)
  }

  /** Accumulates the signed fluxes of the faces of cell c, in the order the cell lists them. */
  method ScatterFluxes(m: Mesh, flux: array<Flux>, n: nat, c: nat) returns (deltaU: Flux)
    requires m.Valid() && flux.Length == m.NumFaces() && Shaped(flux[..], n) && c < m.NumCells()
    ensures deltaU == SignedSum(m, flux[..], n, c, m.cellFaces[c])
  {
    var faces := m.cellFaces[c];
    deltaU := Zero(n);
    var j := 0;
    while j < |faces|
      invariant 0 <= j <= |faces|
      invariant deltaU == SignedSum(m, flux[..], n, c, faces[..j])
    {
      var f := faces[j];
      var neigh := m.faceCells[f];
      assert faces[..j + 1][..j] == faces[..j];
      if neigh[0] == c {
        SubIsAddNeg(deltaU, flux[f]);
        deltaU := VecSub(deltaU, flux[f]);
      } else {
        deltaU := VecAdd(deltaU, flux[f]);
      }
      j := j + 1;
    }
    assert faces[..j] == faces;
  }

  /**
   * Updates the owned cells in order. It stops at the first cell whose updated
   * state fails the positivity check: that cell keeps its failed state, the
   * cells before it keep their (admissible) updates, and the cells after it are
   * untouched. processed counts the owned cells written.
   */
  method ApplyUpdate(m: Mesh, eq: Eqns, dt: real, flux: array<Flux>, U: array<State>)
    returns (outcome: Outcome, ghost processed: nat)
    requires m.Valid() && flux.Length == m.NumFaces() && U.Length == m.NumCells()
    requires Shaped(flux[..], eq.n)
    requires U != flux
    modifies U
    ensures processed <= |m.ownedCells|
    ensures outcome.Pass? ==> processed == |m.ownedCells|
    ensures outcome.Fail? ==> (0 < processed &&
                               outcome.error == NegativeDensityOrInternalEnergy(m.ownedCells[processed - 1]) &&
                               !Admissible(eq, U[m.ownedCells[processed - 1]]))
    ensures forall i :: 0 <= i < processed ==>
      U[m.ownedCells[i]] == UpdatedState(m, eq, flux[..], dt, m.ownedCells[i], old(U[m.ownedCells[i]]))
    ensures forall i :: 0 <= i < processed && (outcome.Pass? || i < processed - 1) ==>
      Admissible(eq, U[m.ownedCells[i]])
    ensures forall c :: 0 <= c < U.Length && c !in m.ownedCells[..processed] ==> U[c] == old(U[c])
  {
    ghost var fl := flux[..];
    var i := 0;
    processed := 0;
    while i < |m.ownedCells|
      invariant 0 <= i <= |m.ownedCells| && processed == i
      invariant flux[..] == fl
      invariant forall i' :: 0 <= i' < i ==>
        U[m.ownedCells[i']] == UpdatedState(m, eq, fl, dt, m.ownedCells[i'], old(U[m.ownedCells[i']]))
      invariant forall i' :: 0 <= i' < i ==> Admissible(eq, U[m.ownedCells[i']])
      invariant forall c :: 0 <= c < U.Length && c !in m.ownedCells[..i] ==> U[c] == old(U[c])
    {
      var c := m.ownedCells[i];
      var deltaU := ScatterFluxes(m, flux, eq.n, c);
      deltaU := VecScale(dt / m.volume[c], deltaU);
      assert c !in m.ownedCells[..i];
      var u := eq.updateStateFromFlux(U[c], deltaU);
      u := eq.updateStateFromEnergy(u);
      U[c] := u;
      assert m.ownedCells[..i + 1] == m.ownedCells[..i] + [c];
      processed := i + 1;
      if eq.internalEnergy(u) < 0.0 || eq.density(u) < 0.0 {
        outcome := Fail(NegativeDensityOrInternalEnergy(c));
        return;
      }
      i := i + 1;
    }
    assert m.ownedCells[..i] == m.ownedCells;
    outcome := Pass;
  }
}
