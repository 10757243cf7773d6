/**
 * The change of basis between the two spin channels (up, down) and the
 * (total density, magnetisation) pair in which the code stores collinear
 * spin-polarised densities. Both the density calculator and the initial
 * guess from eigenvectors use it.
 */
module SpinAlgebra {
  import opened Numerics

  /** Component 0 is up + down, component 1 is up - down. */
  function ToTotalAndMagnetization(up: Vector, down: Vector): (r: (Vector, Vector))
    requires |up| == |down|
    ensures |r.0| == |up| && |r.1| == |up|
    ensures forall i :: 0 <= i < |up| ==> r.0[i] + r.1[i] == 2.0 * up[i]
    ensures forall i :: 0 <= i < |up| ==> r.0[i] - r.1[i] == 2.0 * down[i]
  {
    (Add(up, down), AddScaled(up, -1.0, down))
  }

  /** The inverse change of basis: up = (total + mag) / 2, down = (total - mag) / 2. */
  function FromTotalAndMagnetization(total: Vector, mag: Vector): (r: (Vector, Vector))
    requires |total| == |mag|
    ensures |r.0| == |total| && |r.1| == |total|
    ensures forall i :: 0 <= i < |total| ==> r.0[i] + r.1[i] == total[i]
    ensures forall i :: 0 <= i < |total| ==> r.0[i] - r.1[i] == mag[i]
  {
    (Scale(0.5, Add(total, mag)), Scale(0.5, AddScaled(total, -1.0, mag)))
  }

  lemma SpinBasisRoundTrip(up: Vector, down: Vector)
    requires |up| == |down|
    ensures var tm := ToTotalAndMagnetization(up, down);
            FromTotalAndMagnetization(tm.0, tm.1) == (up, down)
  {
    var tm := ToTotalAndMagnetization(up, down);
    var ud := FromTotalAndMagnetization(tm.0, tm.1);
    assert ud.0 == up;
    assert ud.1 == down;
  }

  lemma SpinBasisRoundTripInverse(total: Vector, mag: Vector)
    requires |total| == |mag|
    ensures var ud := FromTotalAndMagnetization(total, mag);
            ToTotalAndMagnetization(ud.0, ud.1) == (total, mag)
  {
    var ud := FromTotalAndMagnetization(total, mag);
    var tm := ToTotalAndMagnetization(ud.0, ud.1);
    assert tm.0 == total;
    assert tm.1 == mag;
  }
}
