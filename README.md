# FleCSALE hydro kernels, hexahedron shape and 2D normal — a Dafny model

This project models three pieces of FleCSALE, a finite-volume
arbitrary-Lagrangian-Eulerian library for hydrodynamics. All arithmetic is on
Dafny's `real`, so it says nothing about floating point.

- **The hydro solver steps** (`apps/hydro/tasks.h`). These are the sequential
  bodies of the four tasks the hydro driver runs every time step:
  - `initial_conditions`: sets each owned cell from a user function at its
    centroid, then completes the state from the pressure.
  - `evaluate_time_step`: returns the reciprocal of the largest
    wavespeed-over-length-scale ratio, and raises "infinite delta t" when no
    ratio is positive.
  - `evaluate_fluxes`: computes a Riemann flux for each interior face and a
    boundary flux for each boundary face, each scaled by the face area.
  - `apply_update`: scatters the signed face fluxes to the cells and scales
    them by dt over the cell volume. It then updates the conserved and derived
    quantities and raises on negative density or internal energy.

  In the model:
  - Each step is a `method` over the state and flux arrays (`array<State>`,
    `array<Flux>`). Each is proved against a specification function.
  - The mesh is a read-only datatype holding the connectivity and geometry
    (`HydroMesh.Mesh`).
  - The equation and equation-of-state routines are opaque function-valued
    fields of `HydroMesh.Eqns`.
  - A separate module (`HydroConservation`) proves why the update is
    conservative. Interior faces cancel, and the volume-weighted increments of
    all cells add up to -dt times the boundary fluxes.
- **The hexahedron shape** (`ale/geom/shapes/hexahedron.h`):
  - Grandy's closed-form volume, with its invariants: it is non-negative, it
    does not change under translation, it scales by |k|³, a parallelepiped
    gets its |triple product|, and the unit cube gets 1.
  - The six-quadrilateral surface that both `centroid` and `midpoint` hand to
    the general polyhedron. It is proved closed and consistently wound: each
    of the twelve edges is traversed once in each direction. Every vertex lies
    on three faces.
- **The 2D normal** (`flecsale/geom/test/normal.cc`). The normal of a segment
  a→b is (−dy, dx). The model pins it down by its properties (two components,
  orthogonal to b−a, as long as b−a, a counter-clockwise turn) and proves the
  test cases.

Modules: `Vector3`, `Hexahedron`, `Normals`, `Sums` (finite real sums),
`HydroMesh`, `HydroTasks` and `HydroConservation`.

## Model

| member | source | states |
|---|---|---|
| Hexahedron.GrandyDeterminant | ale/geom/shapes/hexahedron.h:90-93 | The determinant: the sum of the three absolute triple products of the diagonal differences. It is never negative. |
| Hexahedron.Volume | ale/geom/shapes/hexahedron.h:77-95 | Grandy's volume: the determinant of the six differences pt2−pt0, pt5−pt0, pt6−pt1, pt6−pt3, pt6−pt4, pt7−pt0, divided by 12. It is never negative. |
| Hexahedron.VolumeTranslationInvariant | ale/geom/shapes/hexahedron.h:84-89 | Moving all eight vertices by the same offset leaves the volume unchanged, because only vertex differences enter the formula. |
| Hexahedron.GrandyDeterminantScaling | ale/geom/shapes/hexahedron.h:90-93 | Scaling the six differences by k multiplies the determinant by \|k³\|. |
| Hexahedron.VolumeScaling | ale/geom/shapes/hexahedron.h:77-95 | Scaling every vertex by k about the origin multiplies the volume by \|k³\|. |
| Hexahedron.VolumeParallelepiped | ale/geom/shapes/hexahedron.h:77-95 | A parallelepiped with corner o and edges u, v, w, numbered as the shape numbers its vertices, gets volume \|u·(v×w)\|. Each Grandy term is four times the triple product. |
| Hexahedron.UnitCubeVolume | ale/geom/shapes/hexahedron.h:77-95 | The unit cube gets volume exactly 1. |
| Hexahedron.SurfaceFaces | ale/geom/shapes/hexahedron.h:45-50 | The surface is the six quadrilaterals (0,1,2,3), (4,7,6,5), (0,4,5,1), (1,5,6,2), (2,6,7,3), (3,7,4,0) of the given points, in this order. |
| Hexahedron.HexSurfaceClosed | ale/geom/shapes/hexahedron.h:45-50 | The six faces traverse each of the twelve hexahedron edges exactly once in each direction: the surface is closed and consistently oriented. |
| Hexahedron.HexSurfaceEdgesOnly | ale/geom/shapes/hexahedron.h:45-50 | Every directed edge of the faces is one of the twelve edges or its reverse. |
| Hexahedron.HexVertexValence | ale/geom/shapes/hexahedron.h:45-50 | Each of the eight vertices is a corner of exactly three faces. |
| Hexahedron.Polyhedron.constructor | ale/geom/shapes/hexahedron.h:44 | A new polyhedron has no faces. |
| Hexahedron.Polyhedron.Insert | ale/geom/shapes/hexahedron.h:45 | Insert appends the face to the face list and changes nothing else. |
| Hexahedron.CentroidPolyhedron | ale/geom/shapes/hexahedron.h:38-52 | It builds a fresh polyhedron whose faces are exactly the six-face surface. |
| Hexahedron.MidpointPolyhedron | ale/geom/shapes/hexahedron.h:57-71 | It builds a fresh polyhedron with the same six faces as the centroid's. The two functions therefore work on the identical surface. |
| Normals.Normal | flecsale/geom/test/normal.cc:50-52 | The 2D normal of a→b has two components and is orthogonal to b−a. Its squared length equals that of b−a. Its cross product with b−a is \|b−a\|², i.e. it is the (−dy, dx) choice and not (dy, −dx). |
| Normals.NormalUnique | flecsale/geom/test/normal.cc:50-52 | For a ≠ b, any 2-vector that is orthogonal to b−a and has that orientation equals Normal(a, b). The properties therefore determine the result. |
| Normals.NormalSwap | flecsale/geom/test/normal.cc:50 | Reversing the segment gives the other normal (dy, −dx) = −Normal(a, b). |
| Normals.NormalTranslation | flecsale/geom/test/normal.cc:50 | The normal depends only on b−a. |
| Normals.NormalDegenerate | flecsale/geom/test/normal.cc:50 | A zero-length segment has the zero normal. |
| Normals.NormalOfUnitX | flecsale/geom/test/normal.cc:54-81 | normal((0,0), (1,0)) is exactly (0, 1), a result of size 2. |
| HydroTasks.InitialConditions | apps/hydro/tasks.h:34-55 | Each owned cell's new state is the pressure-based EOS completion of its old state, with the primitives assigned from ics(centroid, soln_time). Every other cell is unchanged. |
| HydroTasks.EvaluateTimeStep | apps/hydro/tasks.h:65-96 | On success dt > 0. No (owned cell, face) ratio of wavespeed to volume/area exceeds 1/dt, and some pair attains it. The "infinite delta t" error is raised exactly when no ratio is positive, and it is the only error. |
| HydroTasks.ReciprocalInvolutive | apps/hydro/tasks.h:94 | The reciprocal of a positive maximum is positive, and its reciprocal gives the maximum back. |
| HydroTasks.EvaluateFluxes | apps/hydro/tasks.h:104-141 | Each owned face gets the area-scaled Riemann flux of its two neighbours, or the area-scaled boundary flux of its single neighbour. No other face changes. |
| HydroTasks.FaceFluxShaped | apps/hydro/tasks.h:126-136 | When the flux routines return n quantities, so does every area-scaled face flux. |
| HydroTasks.ScatterFluxes | apps/hydro/tasks.h:166-182 | The accumulated delta_u is the signed sum of the cell's face fluxes, in the cell's face order: minus for a face whose first neighbour is the cell, plus otherwise. |
| HydroTasks.ApplyUpdate | apps/hydro/tasks.h:149-201 | Owned cells are updated in order, each to the energy-completed state after adding (dt/volume)·signed flux sum. It stops at the first cell whose new internal energy or density is negative and names that cell. Earlier cells are admissible. Cells not yet reached are unchanged. |
| HydroConservation.SignedSumComponent | apps/hydro/tasks.h:170-182 | Component k of the signed sum is the sum over the cell's faces of s(c,f)·flux(f)[k]. |
| HydroConservation.IncrementFormula | apps/hydro/tasks.h:170-185 | Component k of a cell's increment is (dt/volume)·Σ over its faces of s(c,f)·flux(f)[k], with s = −1 for the first neighbour and +1 otherwise. |
| HydroConservation.InteriorFaceCancels | apps/hydro/tasks.h:177-180 | An interior face with two different neighbours adds to one exactly what it removes from the other. Their two contributions sum to zero. |
| HydroConservation.FaceSignTotal | apps/hydro/tasks.h:177-180 | The signs a face carries to its neighbours total −1 for a boundary face and 0 for an interior face. |
| HydroConservation.Conservation | apps/hydro/tasks.h:163-182 | On a conforming mesh, the net face contributions of all cells add up to minus the total boundary flux. Every interior face cancels. |
| HydroConservation.WeightedSum | apps/hydro/tasks.h:185 | The volume-weighted increments of all cells add up to the sum of dt times their net face contributions. |
| HydroConservation.GlobalConservation | apps/hydro/tasks.h:163-198 | For each conserved quantity, Σ over cells of volume·increment equals Σ over boundary faces of −dt·flux. Only boundary fluxes change the global total. |

## Left out

- Task registration (`flecsi_register_task`), `output` and `print` in
  `apps/hydro/tasks.h`: I/O and runtime plumbing, with no logic to verify.
  The OpenMP pragma and the parallel execution of tasks are left out too:
  every step is modelled sequentially.
- Equations and equation of state: `fastest_wavespeed`, `flux_function`,
  `boundary_flux`, `update_state_from_*`, `density`, `internal_energy` and the
  tuple assignment of density, velocity and pressure are opaque closures in
  `HydroMesh.Eqns`. Their definitions are not part of this model. The `eos`
  argument is held inside the update closures that take it.
- Mesh geometry: cell volumes, centroids, face areas and normals are inputs of
  `HydroMesh.Mesh` and are not recomputed from vertices.
- HydroMesh.Mesh.Valid: every step requires positive volumes and areas. The
  source does not check them; with zero volumes or areas the C++ divides by
  zero and produces infinities or NaN, which `real` cannot represent. Valid
  also requires each owned cell to be listed once, which is how the mesh
  enumerates owned cells.
- HydroTasks.EvaluateTimeStep: NaN wavespeeds, which `std::max`
  would propagate or drop depending on the argument order, are not modelled.
  The `std::max(dti, dt_inv)` tie and order behaviour is kept.
- HydroTasks.EvaluateFluxes and HydroTasks.ApplyUpdate require the state and
  flux arrays to be distinct. In the source they are different fields.
- HydroTasks.ApplyUpdate: the runtime error is modelled as an early return of
  `Fail(NegativeDensityOrInternalEnergy(c))`. The failing cell keeps its
  rejected state, as in the source, where `u` refers into `U`. The error
  message text is not modelled. The ghost out-parameter `processed` counts
  the owned cells written.
- HydroConservation.GlobalConservation: stated for a conforming mesh (the two
  connectivities agree, and no cell lists a face twice or a face a cell
  twice). The source assumes this of its mesh and does not check it.
- Normals: the library's `normal` routine itself is not part of this model.
  Normals.Normal follows the (−dy, dx) contract that the test of the 2D
  normal documents. The 3D normal is left out.
- Normals.NormalUnique: requires a ≠ b, because for a degenerate segment every
  vector meets the orthogonality and orientation conditions.
- Hexahedron: the general polyhedron's `centroid` and `midpoint` integration
  is not part of this model. The model stops at the face list that
  `CentroidPolyhedron` and `MidpointPolyhedron` build.
- The 2D problem inputs (`apps/hydro/2d/inputs.h`, `apps/hydro/2d/inputs.cc`)
  and the Portage test fixture: configuration and test harness, with no core
  logic.
- Floating point: rounding, overflow and the test tolerance of the normal
  tests are not modelled. All quantities are exact reals.
