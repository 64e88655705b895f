// Why the update is conservative: an interior face takes from one neighbour
// exactly what it gives to the other, so summed over the whole mesh the net
// face contributions reduce to the fluxes through boundary faces.
module HydroConservation {
  import opened Sums
  import opened HydroMesh
  import opened HydroTasks

  /** Component k of the flux of face f, zero outside the data. */
  function Comp(fl: seq<Flux>, f: nat, k: nat): real
  {
    if f < |fl| && k < |fl[f]| then fl[f][k] else 0.0
  }

  /** The sign with which face f enters the balance of cell c: -1 for its first neighbour, +1 otherwise. */
  function Sign(m: Mesh, c: nat, f: nat): real
    requires m.Valid() && f < m.NumFaces()
  {
    if m.faceCells[f][0] == c then -1.0 else 1.0
  }

  /** f |-> s(c, f) * flux(f)[k], the summand of cell c's balance. */
  function Term(m: Mesh, fl: seq<Flux>, c: nat, k: nat): nat -> real
    requires m.Valid()
  {
    (f: nat) => if f < m.NumFaces() then Sign(m, c, f) * Comp(fl, f, k) else 0.0
  }

  lemma ContributionComponent(m: Mesh, fl: seq<Flux>, c: nat, f: nat, k: nat)
    requires m.Valid() && |fl| == m.NumFaces() && f < m.NumFaces() && k < |fl[f]|
    ensures Contribution(m, fl, c, f)[k] == Term(m, fl, c, k)(f)
  {
  }

  /** Component k of a signed face sum is the plain sum of the signed components. */
  lemma {:induction false} SignedSumComponent(m: Mesh, fl: seq<Flux>, n: nat, c: nat, fs: seq<nat>, k: nat)
    requires m.Valid() && |fl| == m.NumFaces() && Shaped(fl, n) && k < n
    requires forall i :: 0 <= i < |fs| ==> fs[i] < m.NumFaces()
    ensures SignedSum(m, fl, n, c, fs)[k] == ListSum(fs, Term(m, fl, c, k))
  {
    if |fs| > 0 {
      var f := fs[|fs| - 1];
      SignedSumComponent(m, fl, n, c, fs[..|fs| - 1], k);
      ContributionComponent(m, fl, c, f, k);
    }
  }

  /**
   * The increment of cell c, component by component: dt / volume times the sum
   * over the cell's faces of s(c, f) * flux(f), with s = -1 when c is the
   * face's first neighbour and +1 otherwise.
   */
  lemma IncrementFormula(m: Mesh, fl: seq<Flux>, n: nat, dt: real, c: nat, k: nat)
    requires m.Valid() && |fl| == m.NumFaces() && Shaped(fl, n) && c < m.NumCells() && k < n
    ensures Increment(m, fl, n, dt, c)[k] == (dt / m.volume[c]) * ListSum(m.cellFaces[c], Term(m, fl, c, k))
  {
    SignedSumComponent(m, fl, n, c, m.cellFaces[c], k);
  }

  /**
   * An interior face with two different neighbours adds to the second exactly
   * what it removes from the first.
   */
  lemma InteriorFaceCancels(m: Mesh, fl: seq<Flux>, f: nat)
    requires m.Valid() && |fl| == m.NumFaces() && f < m.NumFaces()
    requires |m.faceCells[f]| == 2 && m.faceCells[f][0] != m.faceCells[f][1]
    ensures Contribution(m, fl, m.faceCells[f][0], f) == VecNeg(Contribution(m, fl, m.faceCells[f][1], f))
    ensures VecAdd(Contribution(m, fl, m.faceCells[f][0], f), Contribution(m, fl, m.faceCells[f][1], f))
         == Zero(|fl[f]|)
  {
  }

  /** c |-> component k of cell c's net face contribution (volume * increment / dt). */
  function CellNet(m: Mesh, fl: seq<Flux>, k: nat): nat -> real
    requires m.Valid()
  {
    (c: nat) => if c < m.NumCells() then ListSum(m.cellFaces[c], Term(m, fl, c, k)) else 0.0
  }

  /** f |-> component k of the flux of f if f is a boundary face, zero otherwise. */
  function BoundaryPart(m: Mesh, fl: seq<Flux>, k: nat): nat -> real
    requires m.Valid()
  {
    (f: nat) => if f < m.NumFaces() && |m.faceCells[f]| == 1 then Comp(fl, f, k) else 0.0
  }

  /** (c, f) |-> the summand of cell c's balance at face f when c has face f. */
  function Incidence(m: Mesh, fl: seq<Flux>, k: nat): (nat, nat) -> real
    requires m.Valid()
  {
    (c: nat, f: nat) => if c < m.NumCells() && f in m.cellFaces[c] then Term(m, fl, c, k)(f) else 0.0
  }

  /** c |-> the sign of face f in cell c's balance. */
  function SignsOf(m: Mesh, f: nat): nat -> real
    requires m.Valid()
  {
    (c: nat) => if f < m.NumFaces() then Sign(m, c, f) else 0.0
  }

  /** The signs a face carries into its own neighbours add up to -1 on the boundary and 0 inside. */
  lemma FaceSignTotal(m: Mesh, f: nat)
    requires m.Conforming() && f < m.NumFaces()
    ensures ListSum(m.faceCells[f], SignsOf(m, f)) == if |m.faceCells[f]| == 1 then -1.0 else 0.0
  {
    var cs := m.faceCells[f];
    assert cs[..1] == [cs[0]];
    assert [cs[0]][..0] == [];
    var g := SignsOf(m, f);
    assert g(cs[0]) == -1.0;
    assert ListSum([cs[0]], g) == -1.0;
    if |cs| == 2 {
      assert cs[..|cs| - 1] == [cs[0]];
      assert cs[0] != cs[1];
      assert g(cs[1]) == 1.0;
    }
  }

  /** Summing cell f's column of the incidence table gives minus its boundary part. */
  lemma ColumnTotal(m: Mesh, fl: seq<Flux>, k: nat, f: nat)
    requires m.Conforming() && f < m.NumFaces()
    ensures ColSums(Incidence(m, fl, k), m.NumCells())(f) == -BoundaryPart(m, fl, k)(f)
  {
    var h := Incidence(m, fl, k);
    var cs := m.faceCells[f];
    forall c: nat | c < m.NumCells()
      ensures Col(h, f)(c) == Times(Comp(fl, f, k), Indicator(cs, SignsOf(m, f)))(c)
    {
      assert f in m.cellFaces[c] <==> c in cs;
      assert Col(h, f)(c) == h(c, f);
      if c in cs {
        assert h(c, f) == Term(m, fl, c, k)(f) == Sign(m, c, f) * Comp(fl, f, k);
        assert Indicator(cs, SignsOf(m, f))(c) == Sign(m, c, f);
      } else {
        assert h(c, f) == 0.0;
        assert Indicator(cs, SignsOf(m, f))(c) == 0.0;
      }
    }
    SumToExt(m.NumCells(), Col(h, f), Times(Comp(fl, f, k), Indicator(cs, SignsOf(m, f))));
    SumToTimes(m.NumCells(), Comp(fl, f, k), Indicator(cs, SignsOf(m, f)));
    ListSumIndicator(cs, SignsOf(m, f), m.NumCells());
    FaceSignTotal(m, f);
  }

  /**
   * Conservation: over the whole mesh the net face contributions of all cells
   * add up to minus the total flux through the boundary faces; every interior
   * face cancels.
   */
  lemma Conservation(m: Mesh, fl: seq<Flux>, k: nat)
    requires m.Conforming()
    ensures SumTo(m.NumCells(), CellNet(m, fl, k)) == -SumTo(m.NumFaces(), BoundaryPart(m, fl, k))
  {
    var h := Incidence(m, fl, k);
    var nc, nf := m.NumCells(), m.NumFaces();
    forall c: nat | c < nc
      ensures CellNet(m, fl, k)(c) == RowSums(h, nf)(c)
    {
      ListSumIndicator(m.cellFaces[c], Term(m, fl, c, k), nf);
      SumToExt(nf, Indicator(m.cellFaces[c], Term(m, fl, c, k)), Row(h, c));
    }
    SumToExt(nc, CellNet(m, fl, k), RowSums(h, nf));
    SumSwap(nc, nf, h);
    forall f: nat | f < nf
      ensures ColSums(h, nc)(f) == Times(-1.0, BoundaryPart(m, fl, k))(f)
    {
      ColumnTotal(m, fl, k, f);
    }
    SumToExt(nf, ColSums(h, nc), Times(-1.0, BoundaryPart(m, fl, k)));
    SumToTimes(nf, -1.0, BoundaryPart(m, fl, k));
  }

  /** c |-> volume of c times component k of its increment. */
  function WeightedIncrement(m: Mesh, fl: seq<Flux>, n: nat, dt: real, k: nat): nat -> real
    requires m.Valid() && |fl| == m.NumFaces() && Shaped(fl, n)
  {
    (c: nat) => if c < m.NumCells() && k < n then m.volume[c] * Increment(m, fl, n, dt, c)[k] else 0.0
  }

  lemma VolumeCancels(v: real, dt: real, x: real)
    requires v > 0.0
    ensures v * ((dt / v) * x) == dt * x
  {
    assert v * (dt / v) == dt;
  }

  lemma WeightedIncrementAt(m: Mesh, fl: seq<Flux>, n: nat, dt: real, k: nat, c: nat)
    requires m.Valid() && |fl| == m.NumFaces() && Shaped(fl, n) && k < n && c < m.NumCells()
    ensures WeightedIncrement(m, fl, n, dt, k)(c) == Times(dt, CellNet(m, fl, k))(c)
  {
    var x := ListSum(m.cellFaces[c], Term(m, fl, c, k));
    IncrementFormula(m, fl, n, dt, c, k);
    VolumeCancels(m.volume[c], dt, x);
    assert WeightedIncrement(m, fl, n, dt, k)(c) == m.volume[c] * ((dt / m.volume[c]) * x);
    assert Times(dt, CellNet(m, fl, k))(c) == dt * x;
  }

  /**
   * Global conservation of the update: for each conserved quantity k, the
   * volume-weighted increments of all cells add up to the sum over the
   * boundary faces of -dt times their flux (by SumToScaledBalance, -dt times
   * the boundary flux total).
   */
  lemma GlobalConservation(m: Mesh, fl: seq<Flux>, n: nat, dt: real, k: nat)
    requires m.Conforming() && |fl| == m.NumFaces() && Shaped(fl, n) && k < n
    ensures SumTo(m.NumCells(), WeightedIncrement(m, fl, n, dt, k))
         == SumTo(m.NumFaces(), Times(-dt, BoundaryPart(m, fl, k)))
  {
    Conservation(m, fl, k);
    WeightedSum(m, fl, n, dt, k);
    SumToScaledBalance(m.NumCells(), CellNet(m, fl, k), m.NumFaces(), BoundaryPart(m, fl, k), dt);
  }

  /** The volume-weighted increments add up to the sum of dt times the net contributions. */
  lemma WeightedSum(m: Mesh, fl: seq<Flux>, n: nat, dt: real, k: nat)
    requires m.Valid() && |fl| == m.NumFaces() && Shaped(fl, n) && k < n
    ensures SumTo(m.NumCells(), WeightedIncrement(m, fl, n, dt, k)) == SumTo(m.NumCells(), Times(dt, CellNet(m, fl, k)))
  {
    var w, net := WeightedIncrement(m, fl, n, dt, k), CellNet(m, fl, k);
    forall c: nat | c < m.NumCells()
      ensures w(c) == Times(dt, net)(c)
    {
      WeightedIncrementAt(m, fl, n, dt, k, c);
    }
    SumToExt(m.NumCells(), w, Times(dt, net));
  }
}
