/** `TK_8.py`: the cylinder segment `r_min <= r <= r_max`, `0 <= phi <=
    phi_max`, `0 <= z <= z_max` inside the unit cylinder, with the width
    clamp that keeps it inside and the slider callback that keeps the centre
    radius compatible with the width. The drawing is not modelled. */
module Cylinder {
  import opened Numerics

  /** The outer radius of the reference cylinder. */
  const R_OUTER: real := 1.0

  /** The radial extent of the drawn segment and its volume. */
  datatype Segment = Segment(rMin: real, rMax: real, volume: real)

  /** `min(r_width, 2 * min(r_center, R_outer - r_center))`. */
  function ClampWidth(centre: real, width: real): (w: real)
    ensures w <= width
    ensures w <= 2.0 * centre && w <= 2.0 * (R_OUTER - centre)
    ensures width <= 2.0 * Min(centre, R_OUTER - centre) ==> w == width
  {
    Min(width, 2.0 * Min(centre, R_OUTER - centre))
  }

  /** The half-annulus volume `0.5 (r_max^2 - r_min^2) phi_max z_max`. */
  function AnnulusVolume(rMin: real, rMax: real, phi: real, z: real): (v: real) {
    0.5 * (rMax * rMax - rMin * rMin) * phi * z
  }

  /** `plot_cylinder_with_segment` up to the drawing: clamp the width, place
      the radii symmetrically round the centre and compute the volume. For a
      centre on the radius the segment lies inside the cylinder, is exactly
      as wide as the clamped width, and is no wider than asked for. */
  function Plot(centre: real, width: real, phi: real, z: real): (s: Segment)
    ensures s.rMax - s.rMin == ClampWidth(centre, width)
    ensures s.rMax - s.rMin <= width
    ensures 0.0 <= centre <= R_OUTER && 0.0 <= width ==> s.rMin <= centre <= s.rMax
    ensures 0.0 <= s.rMin && s.rMax <= R_OUTER
    ensures s.volume == AnnulusVolume(s.rMin, s.rMax, phi, z)
  {
    var w := ClampWidth(centre, width);
    Segment(centre - w / 2.0, centre + w / 2.0, AnnulusVolume(centre - w / 2.0, centre + w / 2.0, phi, z))
  }

  /** The annulus formula equals mean radius times width times angle times
      height, the volume of a thin shell unrolled. */
  lemma VolumeIsMeanRadius(centre: real, width: real, phi: real, z: real)
    ensures Plot(centre, width, phi, z).volume == centre * ClampWidth(centre, width) * phi * z
  {
    var w := ClampWidth(centre, width);
    var lo, hi := centre - w / 2.0, centre + w / 2.0;
    assert hi * hi - lo * lo == 2.0 * centre * w;
  }

  /** The segment is never larger than the whole cylinder sector
      `0.5 R^2 phi z`, and never negative, when the centre lies on the
      radius and the width, angle and height are non-negative. */
  lemma VolumeWithinSector(centre: real, width: real, phi: real, z: real)
    requires 0.0 <= centre <= R_OUTER && 0.0 <= width
    requires 0.0 <= phi && 0.0 <= z
    ensures 0.0 <= Plot(centre, width, phi, z).volume <= 0.5 * R_OUTER * R_OUTER * phi * z
  {
    var s := Plot(centre, width, phi, z);
    var area := 0.5 * (s.rMax * s.rMax - s.rMin * s.rMin);
    SquareLeq(s.rMin, s.rMax);
    SquareLeq(s.rMax, R_OUTER);
    assert 0.0 <= s.rMin * s.rMin;
    assert 0.0 <= area <= 0.5;
    MulNonNegMono(phi, area, 0.5);
    assert 0.0 <= phi * area;
    MulNonNegMono(z, phi * area, phi * 0.5);
    assert 0.0 <= z * (phi * area);
    assert s.volume == z * (phi * area);
    assert 0.5 * R_OUTER * R_OUTER * phi * z == z * (phi * 0.5);
  }

  /** `update`: `np.clip(r_center, r_width / 2, 1 - r_width / 2)`. */
  function CentreClip(centre: real, width: real): (c: real)
    ensures width <= 1.0 ==> width / 2.0 <= c <= R_OUTER - width / 2.0
    ensures width / 2.0 <= centre <= R_OUTER - width / 2.0 ==> c == centre
  {
    Clip(centre, width / 2.0, R_OUTER - width / 2.0)
  }

  /** The slider callback, centre clip then plot. For every width the
      slider offers the clamp never bites afterwards: the drawn segment is
      exactly as wide as the slider says. */
  function Update(centre: real, width: real, phi: real, z: real): (s: Segment)
    ensures 0.0 <= width <= 1.0 ==> s.rMax - s.rMin == width
    ensures 0.0 <= width <= 1.0 ==> 0.0 <= s.rMin && s.rMax <= R_OUTER
  {
    Plot(CentreClip(centre, width), width, phi, z)
  }

  /** A centre the callback has already clipped stays put on the next
      call: the clip is idempotent. */
  lemma CentreClipIdempotent(centre: real, width: real)
    requires width <= 1.0
    ensures CentreClip(CentreClip(centre, width), width) == CentreClip(centre, width)
  {
  }
}
