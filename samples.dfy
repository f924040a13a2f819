/**
 * What the data source yields for one complex: an ordered stream of
 * (center, grid) pairs, where the grid is an opaque input tensor.
 */
module Samples {

  /** A grid center: the three coordinates `center[0]`, `center[1]`, `center[2]`. */
  datatype Center = Center(x: real, y: real, z: real)

  /** One `(center, grid)` pair of `binding_site_grids`. */
  datatype Sample<G> = Sample(center: Center, grid: G)

  /** A protein–ligand pair, `complex[0]` and `complex[1]`. */
  datatype Complex = Complex(ligand: string, protein: string)

  /** The centers of a stream, in stream order. */
  function Centers<G>(samples: seq<Sample<G>>): (cs: seq<Center>)
    ensures |cs| == |samples|
  {
    if samples == [] then [] else Centers(samples[..|samples| - 1]) + [samples[|samples| - 1].center]
  }

  lemma {:induction false} CentersAt<G>(samples: seq<Sample<G>>, k: nat)
    requires k < |samples|
    ensures Centers(samples)[k] == samples[k].center
  {
    if k < |samples| - 1 {
      CentersAt(samples[..|samples| - 1], k);
    }
  }

  /** The grids of a stream, in stream order. */
  function Grids<G>(samples: seq<Sample<G>>): (gs: seq<G>)
    ensures |gs| == |samples|
  {
    if samples == [] then [] else Grids(samples[..|samples| - 1]) + [samples[|samples| - 1].grid]
  }

  lemma {:induction false} GridsAt<G>(samples: seq<Sample<G>>, k: nat)
    requires k < |samples|
    ensures Grids(samples)[k] == samples[k].grid
  {
    if k < |samples| - 1 {
      GridsAt(samples[..|samples| - 1], k);
    }
  }
}
