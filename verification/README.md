# Active filaments, wave scripts, geometry sliders and the Mandelbrot set — a Dafny model

This project models the computational core of a collection of physics
teaching and simulation scripts:

- **The active-filament engine** (`sim_2.py`, `cyano_sim.py`, `umwelt.py`):
  gliding cyanobacteria-like filaments, each a chain of 30 points with a
  heading, a speed and a polarity. One step reverses the polarity with a
  given probability, turns the heading by noise plus a Lebwohl–Lasher
  nematic alignment torque, moves the head, relaxes the chain back to its
  segment length (by a half step in `sim_2.py`, by a hard snap plus an
  optional bending pass in `cyano_sim.py`), and reflects the head at the
  walls. The driver sweep computes each filament's torque and slide velocity
  from its neighbours. The diagnostics are the global nematic order
  parameter and the block-averaged local order on an `l × l` grid. The
  display helpers unwrap a periodic chain and smooth it with a moving
  average.
- **The LNDW wave scripts**:
  - `Wasserwelle.py` and `Wasserwelle_2.py`: expanding ring waves from
    clicked sources, with a microphone that hears each source's frequency;
  - `Interferenz.py`: a superposition field normalised into grey levels;
  - `welle_3.py`: refracted pulses with a fading overlay;
  - `analog_horror.py`: ringing sources and their mirrored colour map;
  - `Punkt_welle.py`: the wavelength-to-RGB spectrum, its legend and the
    keyboard control of two point sources.
- **`GP/TK_8/TK_8.py`**: a cylinder segment with its width clamp and volume.
- **`GP/TK_8/TK8_cube.py`**: an axis-aligned box with its vertices, faces,
  placement clip and volume.
- **`GP/TK_41/Polarisation.py`**: optical rotation of a polarisation arrow
  crossing a sample cell, following Biot's law.
- **`Mandelbrot/Mandelbrot.py`**: the escape-time iteration and the pixel
  grid it fills.

## How the model is built

Floating-point numbers are modelled as exact reals.

- `sqrt`, `cos` and `sin` come in as a `Maths` value whose `Valid()`
  predicate states the only facts used about them:
  - the square root is non-negative and squares back;
  - `cos² + sin² = 1`.
- Python's float `%`, `int()`, `round()` and `np.clip` are written out with
  Python's own semantics. `%` is the floored remainder, `int()` truncates
  toward zero, and `round()` rounds half to even.
- Every random draw is an explicit parameter: the reversal test, the noise's
  normal draw, the slide draws and the initial placement.
- The wall clock is a parameter.
- The neighbour lists a `cKDTree` query returns are inputs.
- Pure computations are functions. Those with a contract have named
  results; plain helpers such as vector arithmetic do not.
- Operations have partner lemmas where the code suggests one: an invariant
  the operation keeps, a monotonicity or permanence property, an
  idempotence or symmetry, or a reference definition. An example of a
  reference definition is the travelling-wave phase
  `WaveFields.WavePhase`, which each wave script's phase formula is proved
  equal to.

Notes on the code:

- **Sign of the alignment term.** The code is followed.
  - `sim_2.py` passes `+0.02 · torque` as `alignment_force` (lines 204–206)
    and adds it to the heading.
  - `cyano_sim.py` and `umwelt.py` pass `-0.02 · torque`, and then subtract
    `0.02` times that argument again. The net gain on the raw torque is
    therefore `+0.0004` (`Integration.NetAlignment`).
- **The bending pass in `cyano_sim.py`** (lines 83–100) only repositions
  points from index 2 on. Point 1 keeps the snapped position.
- **`Wasserwelle.py`'s ring schedule** uses `int()` truncation of elapsed
  time times speed over wavelength. The model keeps that truncation.

## Model

| member | source | states |
|---|---|---|
| Numerics.Clip | GP/TK_8/TK8_cube.py:98-100 | `np.clip`: for `lo <= hi` the result lies in `[lo, hi]`; a value already there is kept, and a value outside goes to the nearer bound |
| Numerics.FMod | sim_2.py:55 | Python's float `%` by a positive modulus lies in `[0, m)` and is congruent to its argument |
| Numerics.FModUnique | sim_2.py:55 | the remainder is the only value in `[0, m)` congruent to the argument |
| Numerics.FModOfInRange | sim_2.py:55 | a value already in `[0, m)` is left alone |
| Numerics.FModOfCongruent | sim_2.py:55 | the remainder depends only on the residue class |
| Numerics.FModIdempotent | sim_2.py:63 | taking the remainder twice is the same as taking it once |
| Numerics.Trunc | LNDW/Wasserwelle.py:28 | Python's `int()` on a float truncates toward zero |
| Numerics.RoundHalfEven | LNDW/Punkt_welle.py:69 | Python's `round()` is within 0.5 of its argument and picks the even integer on a tie |
| Numerics.RoundWithin | LNDW/Punkt_welle.py:69 | rounding a value between two integers stays between them |
| Numerics.MeanBound | sim_2.py:83 | a sum of `n` terms from `[-1, 1]`, divided by `n`, stays in `[-1, 1]` |
| Vectors.NormScale | sim_2.py:71 | `np.linalg.norm(k v)` is `abs(k)` times `norm(v)` |
| Vectors.UnitBounds | sim_2.py:65 | cosine and sine lie in `[-1, 1]`, and the heading vector `(cos t, sin t)` has length 1 |
| Vectors.NormTriangle | sim_2.py:71 | the triangle inequality for the Euclidean norm |
| Vectors.RescaledLength | cyano_sim.py:80-82 | a vector rescaled to length `len` along itself has length `len` |
| Collections.Keep | LNDW/Wasserwelle_2.py:105 | the list-comprehension filter keeps exactly the elements that pass and never more than it was given; the order and the multiplicities are stated by KeepConcat and KeepCounts |
| Collections.KeepAll | LNDW/Wasserwelle_2.py:105 | the filter returns its input unchanged when every element passes |
| Collections.KeepCounts | LNDW/Wasserwelle_2.py:105 | an element that passes occurs in the result exactly as often as in the input, and one that fails not at all |
| Collections.KeepConcat | LNDW/Wasserwelle_2.py:105 | filtering a concatenation filters each part on its own and keeps the parts in order |
| Collections.KeepOne | LNDW/Wasserwelle_2.py:105 | a one-element list is kept whole when its element passes and emptied otherwise |
| Filaments.Dt | umwelt.py:14 | the time step is positive: 0.5 in `umwelt.py`, 0.2 in the other two scripts |
| Filaments.NewFilament | sim_2.py:25-39 | a new filament has 30 points spaced exactly one segment length apart along its heading; its head lies at least the margin from every wall; its heading is in `[0, 2 pi)`; polarity is +1 and it is not bonded |
| Filaments.StraightChain | sim_2.py:30-36 | the initial chain starts at the head, and every step back to the next point is the segment length times the unit heading |
| Filaments.UnitStep | sim_2.py:34 | one segment-length step along a unit heading is one segment long |
| Filaments.TrailingSpacing | sim_2.py:33-36 | consecutive points `start - i L d` differ by exactly `L d` |
| Filaments.Reflect | sim_2.py:41-56 | the head is clamped into the box, coordinate by coordinate, and left alone when already inside. The heading becomes `pi - theta` after an x-wall, `-theta` after a y-wall, both after a corner, then is wrapped into `[0, 2 pi)`. No other point or field changes |
| Filaments.ReflectIdempotent | sim_2.py:41-56 | reflecting an already reflected filament changes nothing |
| Filaments.ReflectAtRightWall | sim_2.py:46-48 | a head that crosses the right wall heading along +x is clamped to the wall and turns to heading `pi` |
| Filaments.NewPopulationWellFormed | sim_2.py:28-39 | freshly built filaments (full chain, polarity +1, not bonded) form a well-formed population |
| Forces.WrapAngle | sim_2.py:104 | `(d + pi) % 2pi - pi` lies in `[-pi, pi)` and is congruent to `d` modulo a full turn |
| Forces.WrapAngleUnique | sim_2.py:104 | the wrapped angle is the only value in `[-pi, pi)` congruent to `d` |
| Forces.AngleGap | sim_2.py:102-104 | the folded heading difference lies in `[0, pi]` and is congruent to `theta1 - theta2` or to its negation |
| Forces.AngleGapCongruent | sim_2.py:102-104 | wrapping both headings into `[0, 2 pi)` first does not change the difference modulo a full turn |
| Forces.WrapAngleNegate | sim_2.py:104 | negating an angle negates its wrapped value, except at `-pi`, which stays `-pi` |
| Forces.AngleGapSymmetric | sim_2.py:102-104 | the folded difference does not depend on which heading comes first |
| Forces.BondDirection | sim_2.py:105-110 | the result is +1 exactly when the gap is below `pi/4`, -1 exactly when it is above `3 pi/4`, and there is no bond otherwise |
| Forces.BondDirectionSymmetric | sim_2.py:102-110 | two filaments agree on whether and how they would bond with each other |
| Forces.EqualHeadingsBondParallel | sim_2.py:102-106 | equal headings give gap 0 and bond with direction +1 |
| Forces.SinSum | sim_2.py:82-83 | the sum of `sin(2(theta_i - theta_j))` lies between minus and plus the number of neighbours |
| Forces.LebwohlLasher | sim_2.py:79-83 | the torque is 0 without neighbours and always lies in `[-2, 2]` |
| Forces.LebwohlLasherUniform | sim_2.py:79-83 | against neighbours that all share one heading the torque is `2 sin(2(theta_i - t))`, whatever their number |
| Forces.SinSumUniform | sim_2.py:82-83 | with `n` equal neighbour headings the sum is `n` times one term |
| Forces.SlideVelocity | sim_2.py:86-116 | a bonded filament slides along its partner's heading at `direction * 1.5`. Otherwise the first neighbour slot that bonds sets the bond fields, and only those, to a different member with direction +1 or -1, and gives the same slide. Without a bond the velocity is zero, no slot qualified and the filament is returned unchanged |
| Relaxation.HalfStep | sim_2.py:70-74 | a point farther than `1e-8` from its predecessor moves along the same ray, so the new segment length is the mean of the old length and `L` (the length error halves). A point within `1e-8` is not moved |
| Relaxation.HalfStepFactor | sim_2.py:73-74 | subtracting half of `(d - L)/d * vec` scales the segment by `(d + L)/(2d)` |
| Relaxation.PositiveRescale | sim_2.py:73-74 | scaling a vector of length `d` by `c >= 0` gives length `c d` |
| Relaxation.HalfStepRelax | sim_2.py:69-74 | each point after the head is half-stepped against its already-moved predecessor, and the head is kept. A chain already at segment length is returned unchanged |
| Relaxation.HalfStepOnLength | sim_2.py:72-74 | a point exactly one segment length behind its predecessor is a fixed point of the half step |
| Relaxation.NormFlip | sim_2.py:70-71 | the distance between two points does not depend on their order |
| Relaxation.HalfStepHalvesError | sim_2.py:69-74 | after the pass each segment's length error is half the error measured against the moved predecessor |
| Relaxation.Snap | cyano_sim.py:77-82 | a point farther than `1e-8` from its predecessor is put at exactly `L` along the same direction; a nearer point is not moved |
| Relaxation.Direction | cyano_sim.py:80-81 | the vector divided by its norm is a unit vector when the norm exceeds `1e-8`, and `L` along it is `L / norm` times the vector; a vector of norm at most `1e-8` is returned unchanged; the result is never longer than 1 |
| Relaxation.SnapRelax | cyano_sim.py:77-82 | every point after the head is snapped against its already-snapped predecessor. A chain already at segment length is unchanged |
| Relaxation.SnapFixesLength | cyano_sim.py:77-82 | after the snap pass every segment that was longer than `1e-8` has length `L` |
| Relaxation.SnapOnLength | cyano_sim.py:80-82 | a point already at segment length is a fixed point of the snap |
| Relaxation.Bend | cyano_sim.py:84-100 | with a non-degenerate previous segment the point lies `L / |b|` times the blend `b` of the previous and own directions behind the anchor (`L` times `b` when `b` is degenerate); the segment then has length `L` if the blend is non-degenerate or the stiffness is above `(1 + 1e-8)/2`; stiffness 1 copies the previous segment's direction and stiffness 0 gives the snapped point. With a degenerate previous segment the point is snapped if its own offset exceeds `1e-8`, and otherwise placed at `anchor - L (anchor - p)` |
| Relaxation.BendLength | cyano_sim.py:93-100 | placing the point at `L` along a normalised blend gives a segment of length `L`, and stiffness 1 copies the previous direction |
| Relaxation.BlendLowerBound | cyano_sim.py:93-96 | blending a unit direction with stiffness `K > 1/2` against a direction of length at most 1 keeps length at least `2K - 1`, so the blend is never degenerate for `K = 0.99` |
| Relaxation.BlendNormBound | cyano_sim.py:93-97 | the norm of the blend is at least `2K - 1`, by Cauchy-Schwarz |
| Relaxation.BlendExpand | cyano_sim.py:93-96 | the expansion of the squared norm of `K a + (1 - K) b` for a unit `a` |
| Relaxation.ScalarBlend | cyano_sim.py:93-97 | the expanded square is at least `(K - (1 - K)|b|)^2` |
| Relaxation.ScalarRoot | cyano_sim.py:93-97 | taking roots gives `|blend| >= 2K - 1` |
| Relaxation.BendRelax | cyano_sim.py:83-100 | points 0 and 1 are kept (the assignment sits under `i > 1`) and each later point is bent against its two already-moved predecessors. With stiffness 0 or less nothing moves. With stiffness in `((1 + 1e-8)/2, 1]` and a non-degenerate first segment, every later segment has length `L` |
| Relaxation.BentSegment | cyano_sim.py:83-100 | along a bent chain with stiffness above `(1 + EPSILON)/2` and a first segment longer than `EPSILON`, every segment from the second on has exactly segment length |
| Relaxation.Relax | sim_2.py:69-74 | the relaxation of `update`: the half-step pass, or in `cyano_sim.py` the snap pass then the bending pass. The head never moves, and in `cyano_sim.py` every segment after the first ends at exactly `L` once the first segment is non-degenerate |
| Relaxation.Relaxed | sim_2.py:69-74 | the relation between a chain and its relaxed form: the half-step pass in `sim_2.py` and `umwelt.py`, the snap pass followed by the bending pass in `cyano_sim.py` (lines 77-100) |
| Integration.NewHeading | sim_2.py:61-63 | the new heading is the old heading plus noise plus the alignment term (minus `0.02` times the argument in `cyano_sim.py` and `umwelt.py`), wrapped into `[0, 2 pi)` |
| Integration.AlignmentArgument | sim_2.py:204-206 | the argument passed as `alignment_force` is `0.02` times the raw torque in magnitude; it has the torque's sign in `sim_2.py` and the opposite sign in `cyano_sim.py` and `umwelt.py` (`cyano_sim.py` lines 188-189) |
| Integration.NetAlignment | cyano_sim.py:183-189 | through the driver the raw torque turns the heading with gain +0.02 in `sim_2.py` (lines 204-206) and +0.0004 in the other two scripts, where the argument is negated and scaled by 0.02 twice (`cyano_sim.py` lines 68 and 189) |
| Integration.SmoothHeading | cyano_sim.py:70-73 | the smoothed heading lies in `[0, 2 pi)` and is congruent to the old smoothed heading plus 0.2 times the folded difference |
| Integration.SmoothHeadingContracts | cyano_sim.py:70-73 | each smoothing step leaves exactly 0.8 of the folded difference between heading and smoothed heading |
| Integration.SmoothHeadingFixedPoint | cyano_sim.py:70-73 | a smoothed heading equal to a wrapped heading stays put |
| Integration.Flip | sim_2.py:59-60 | the polarity is negated exactly when the draw is below `reversal_rate * dt`; a sign stays a sign |
| Integration.MoveHead | sim_2.py:65-67 | the head step `points[0] += (speed * polarity * move_dir + slide_velocity) * dt`; how far it moves is stated by MoveHeadDistance |
| Integration.MoveHeadDistance | sim_2.py:65-67 | without sliding, the head moves exactly `speed * dt` whichever the polarity |
| Integration.Advance | sim_2.py:58-67 | the first half of `update`: the polarity is the flip of the old one, the heading is the noisy, aligned and wrapped new heading, the smoothed heading moves toward the new heading in `cyano_sim.py` (lines 70-75) and is untouched in the other scripts, the head takes one MoveHead step along the new heading (along the new smoothed heading in `cyano_sim.py`), and the points behind the head and every other field are unchanged |
| Integration.Update | sim_2.py:58-76 | `update` in all three scripts: the head is in the box and the heading in `[0, 2 pi)` afterwards; the polarity is the flip of the old one; bond fields and speed are unchanged; `cyano_sim.py` advances the smoothed heading and the others keep it. A head that stayed inside is not reflected. In `cyano_sim.py` every segment behind the first has length `L` |
| Integration.TailLengths | sim_2.py:41-56 | reflection moves only the head, so the segments behind the first keep their lengths |
| Integration.Neighbours | sim_2.py:200-201 | the neighbour list holds exactly the candidates other than the filament itself, in their order |
| Integration.NeighboursWithoutSelf | sim_2.py:201 | a candidate list without the filament is passed on unchanged |
| Integration.Sweep | sim_2.py:196-208 | one frame over the population in order, in place. Each filament `i` is the result of one Update of its own state with its own draws, its neighbours' headings and its SlideVelocity, all read from the population as the loop left it (filaments before `i` already moved, the rest not). Its polarity is the flip of the old one with its own draw. The population stays well formed (full chains, signed polarities, bonds to other members); every head is in the box and every heading in `[0, 2 pi)`; a bond once formed is never dropped or changed, and a filament that forms no bond keeps its bond fields; speeds are unchanged |
| Integration.StepKeepsUnbonded | sim_2.py:86-116 | a turn in which an unbonded filament forms no bond leaves its `stuck_to` and `stuck_direction` as they were: only a bond writes them |
| Integration.Turn | sim_2.py:199-208 | one filament's turn in the frame loop: its neighbours are read from the population as the loop has left it so far (earlier filaments already moved, later ones not), and the result is one Update with the torque of their current headings and the slide velocity of SlideVelocity; the result stays well formed, in the box and bonded as before |
| Order.CosSum | cyano_sim.py:104-106 | the sum of `cos(2 theta)` lies between minus and plus the population size |
| Order.GlobalOrder | cyano_sim.py:104-106 | the global order is undefined (numpy's `nan`) exactly for an empty population and otherwise lies in `[-1, 1]` |
| Order.GlobalOrderUniform | cyano_sim.py:104-106 | a population sharing one heading has global order `cos(2 theta)` |
| Order.CosSumUniform | cyano_sim.py:104-106 | with `n` equal headings the sum is `n` times one term |
| Order.CellUnique | sim_2.py:127-132 | the half-open cells do not overlap: a head lies in at most one cell |
| Order.InCell | sim_2.py:127-131 | the block test of `compute_blockwise_nematic_order`: `x_min <= x < x_max` and `y_min <= y < y_max` with `x_min = i l`, `x_max = (i + 1) l`, and the same for `y` |
| Order.SlotUnique | sim_2.py:127-131 | a coordinate lies in at most one interval `[i l, (i + 1) l)` |
| Order.WallHeadInNoCell | sim_2.py:122-131 | the cells end at or before the wall, so a head clamped onto `x = 100` or `y = 100` is counted in no cell |
| Order.CellAngles | sim_2.py:129-134 | a cell with no head gets no heading, and never more headings than filaments |
| Order.CellAnglesSelect | sim_2.py:129-134 | a heading is listed for a cell exactly when some filament whose head lies in the half-open cell has that heading |
| Order.CellAnglesConcat | sim_2.py:129-134 | the headings of a split population are those of the first part followed by those of the second: `np.where` keeps population order |
| Order.CellAnglesCount | sim_2.py:129-134 | a cell lists exactly one heading per filament whose head lies in it |
| Order.Resultant | sim_2.py:135-138 | the sum of the doubled-angle unit vectors is no longer than the number of angles |
| Order.CellOrder | sim_2.py:135-139 | the order of one cell, the length of the mean doubled-angle vector, lies in `[0, 1]` |
| Order.ScaledBelowOne | sim_2.py:137-139 | a length at most `n`, divided by `n`, is at most 1 |
| Order.CellOrderUniform | sim_2.py:135-139 | a cell whose headings are all equal has order exactly 1 |
| Order.ResultantUniform | sim_2.py:135-138 | `n` equal angles sum to `n` times one unit vector |
| Order.RowCells | sim_2.py:126-140 | only cells holding more than one head contribute |
| Order.RowCellsEmpty | sim_2.py:126-140 | a row contributes nothing exactly when every cell in it holds at most one head |
| Order.LastColumn | sim_2.py:126-140 | a row of `last + 1` cells is sparse exactly when its first `last` cells are and the cell in column `last` is |
| Order.GridCells | sim_2.py:125-140 | only cells holding more than one head contribute, in the order of the two loops |
| Order.GridCellsEmpty | sim_2.py:125-140 | the grid contributes nothing exactly when every cell holds at most one head |
| Order.LastRow | sim_2.py:125-140 | every cell of the grid is sparse exactly when every cell of the earlier rows and of the last row is |
| Order.OrderSum | sim_2.py:142 | the sum of the cell orders lies between 0 and the number of cells |
| Order.BlockOrder | sim_2.py:119-142 | the blockwise order always lies in `[0, 1]` |
| Order.MeanInUnit | sim_2.py:142 | a mean of values in `[0, 1]` lies in `[0, 1]` |
| Order.BlockOrderSparse | sim_2.py:133-142 | when no cell holds more than one head the blockwise order is 0.0 |
| ChainView.Wrap | cyano_sim.py:113 | `(d + box/2) % box - box/2` lies in `[-box/2, box/2)` and is congruent to `d` modulo the box |
| ChainView.WrapOfInRange | cyano_sim.py:113 | a step already shorter than half a box is not changed |
| ChainView.WrapOfCongruent | cyano_sim.py:113 | the wrapped value depends only on the residue modulo the box |
| ChainView.WrapVec | cyano_sim.py:112-113 | both coordinates of the wrapped step lie in `[-box/2, box/2)` and are congruent to the raw step |
| ChainView.WrapStep | cyano_sim.py:111-114 | measuring from a predecessor congruent to the original gives the same wrapped step |
| ChainView.WrappedLanding | cyano_sim.py:114 | stepping by the wrapped difference lands on a point congruent to the original |
| ChainView.Unwrap | cyano_sim.py:109-115 | the head is kept; every step of the result is the wrapped original step and lies within half a box; every point is congruent to its original. A chain without jumps is returned unchanged, although the loop reads points it has already moved |
| ChainView.WrapVecOfInRange | cyano_sim.py:113 | a step within half a box on both axes is not changed |
| ChainView.VecSumConcat | cyano_sim.py:120 | the sum of a concatenation is the sum of the two sums |
| ChainView.VecSumSplit | cyano_sim.py:120-121 | a prefix sum splits at any index |
| ChainView.CumSum | cyano_sim.py:120 | entry `i` of the cumulative sum is the sum of the first `i + 1` points |
| ChainView.MovingAverage | cyano_sim.py:119-122 | the result has `len - n + 1` entries, and entry `k` is the mean of the window `a[k .. k + n]` |
| ChainView.WindowFromCumSum | cyano_sim.py:120-122 | each window sum is the difference of the cumulative sums at its two ends |
| ChainView.VecSumDifference | cyano_sim.py:121 | subtracting the front sum from the total leaves the back sum |
| ChainView.Smooth | cyano_sim.py:118-126 | a chain shorter than the window is returned as it is, otherwise the window means |
| ChainView.VecSumConstant | cyano_sim.py:120 | `n` copies of a point sum to `n` times that point |
| ChainView.WindowMeanConstant | cyano_sim.py:118-126 | smoothing leaves a chain of identical points unchanged |
| ChainView.WindowMeanSingle | cyano_sim.py:119-122 | a window of width 1 is the point itself |
| WaveFields.ClickWavelength | LNDW/Wasserwelle.py:56-59 | the wavelength never falls below 20; for a non-negative press it is at most 100; a press of one second or more gives exactly 20 |
| WaveFields.ClickWavelengthMonotone | LNDW/Wasserwelle.py:59 | a longer press never gives a longer wave |
| WaveFields.WavelengthToFreq | LNDW/Wasserwelle_2.py:24-28 | the pitch always lies in `[200, 1000]`; wavelengths up to 2 give 1000 and wavelengths of 10 or more give 200 |
| WaveFields.QuotientBelow | LNDW/Wasserwelle_2.py:27-28 | the quotient bounds behind the clipping of `2000 / wavelength` |
| WaveFields.PhaseMovesWithFront | LNDW/Interferenz.py:30 | the travelling-wave phase is constant on the moving front: advancing the distance by `WAVE_SPEED dt` and the time by `dt` keeps the phase |
| WaveFields.PhasePeriod | LNDW/Interferenz.py:30 | one wavelength further out the phase is one full turn larger |
| WaveFields.WavelengthToFreqMonotone | LNDW/Wasserwelle_2.py:24-28 | a longer wave never sounds higher |
| Ripples.NewSource | LNDW/Wasserwelle.py:16-21 | a new source has no fronts and records its creation time |
| Ripples.Update | LNDW/Wasserwelle.py:23-32 | the update only appends: old timestamps are kept and no other field changes. While the source is alive the count becomes the expected count, if that is larger. An expired source is untouched. Each new front gets its scheduled time `created + k * wavelength / 100`, so a schedule stays a schedule, and with a positive wavelength every new front was emitted before now |
| Ripples.EarlierThanNow | LNDW/Wasserwelle.py:28-31 | a front whose index is below the expected count was emitted before the current time |
| Ripples.ScheduleIncreasing | LNDW/Wasserwelle.py:31 | with a positive wavelength the emission times strictly increase |
| Ripples.Rings | LNDW/Wasserwelle.py:35-40 | the drawn radii are exactly the truncated `age * 100` of the fronts younger than 3 s, so every radius is below 300 |
| Ripples.Prune | LNDW/Wasserwelle_2.py:53-54 | the survivors of the expiry filter (line 105) are exactly the sources at most 5 s old, in their order, each as often as it occurred |
| Ripples.IsExpired | LNDW/Wasserwelle_2.py:53-54 | `is_expired`: strictly older than the lifetime of 5 s |
| Ripples.ExpiryIsFinal | LNDW/Wasserwelle_2.py:53-54 | a source expired at one time is expired at every later time, so the filter never drops a source that would come back |
| Ripples.PruneAppend | LNDW/Wasserwelle_2.py:105 | filtering a list with sources appended gives the filtered old list followed by the filtered new sources: the survivors stay in click order |
| Ripples.FirstArrival | LNDW/Wasserwelle_2.py:110-118 | the scan of one source's fronts succeeds exactly when some front is between 0 and 3 s old and its radius is within 5 px of the microphone distance |
| Ripples.MicFrequencies | LNDW/Wasserwelle_2.py:108-118 | one pitch per source with an arriving front, in source order, taken from its wavelength; at most one per source, each in `[200, 1000]` |
| WaveFields.MaxAbs | LNDW/Interferenz.py:75 | the result bounds every sample's magnitude and is the magnitude of some sample |
| WaveFields.Divisor | LNDW/Interferenz.py:75-77 | the divisor is positive, and it bounds every magnitude unless it is the fallback 1 |
| WaveFields.Normalise | LNDW/Interferenz.py:75-81 | every sample is divided by one common positive divisor (the peak magnitude, or 1 for a silent field), so every value lies in `[-1, 1]`; a field that is not silent has a value of magnitude exactly 1; a silent field stays all zero |
| WaveFields.NormalisedValues | LNDW/Interferenz.py:75-81 | the values after division by the peak lie in `[-1, 1]`, and the peak sample maps to magnitude 1 |
| WaveFields.ScaledIntoUnit | LNDW/Interferenz.py:81 | a sample divided by the peak, or by the fallback 1 for a silent field, lies in `[-1, 1]` |
| WaveFields.PeakIsOne | LNDW/Interferenz.py:81 | the peak sample divided by itself has magnitude 1 |
| WaveFields.ZeroFactor | LNDW/Interferenz.py:81 | a product with a positive factor is zero only when the other factor is |
| Interference.Amplitude | LNDW/Interferenz.py:24-35 | the amplitude lies in `[-1, 1]`; it is the sine of the phase exactly while the pulse is on (elapsed time within 8 s and the front passed the pixel at most 3 s ago), and 0 otherwise |
| WaveFields.SplitPhase | LNDW/Interferenz.py:30 | the phase as `Interferenz.py` and `welle_3.py` (line 56) write it, `2 pi (r / wavelength - (WAVE_SPEED / wavelength) elapsed)`, equals the travelling-wave phase `2 pi (r - WAVE_SPEED elapsed) / wavelength` |
| Interference.DarkBeforeArrival | LNDW/Interferenz.py:32-34 | a pixel the front has not reached yet is dark |
| Interference.DroppedStaysSilent | LNDW/Interferenz.py:21-22 | a source the filter drops (line 87) contributes 0 everywhere at every later time, so dropping it changes no later frame |
| Interference.IsActive | LNDW/Interferenz.py:21-22 | `is_active`: younger than the lifetime plus the wave duration |
| Interference.InactiveStaysInactive | LNDW/Interferenz.py:21-22 | a source inactive at one time is inactive at every later time |
| Interference.Prune | LNDW/Interferenz.py:87 | exactly the active sources survive the filter, in order, each as often as it occurred |
| Interference.PruneAppend | LNDW/Interferenz.py:87 | filtering a list with sources appended gives the filtered old list followed by the filtered new sources |
| Interference.AmplitudeSum | LNDW/Interferenz.py:69-71 | the summed amplitude at a pixel is at most one unit per source |
| Interference.AmplitudeSumAppend | LNDW/Interferenz.py:69-71 | a source appended to the list adds exactly its own amplitude to the sum |
| Interference.PruneKeepsLaterSum | LNDW/Interferenz.py:69-87 | the filter after a frame (line 87) leaves the summed amplitude at every pixel and every later time unchanged |
| Interference.Grey | LNDW/Interferenz.py:82 | `int((val + 1)/2 * 255)` of a normalised sample is a byte; the trough -1 is black 0, silence is grey 127 and the crest 1 is white 255 |
| Interference.GreyMonotone | LNDW/Interferenz.py:82 | a louder sample is never drawn darker |
| Interference.GreyNearLinear | LNDW/Interferenz.py:82 | the grey level is the linear map `(val + 1) * 127.5` truncated: within one step below it |
| Interference.Brightness | LNDW/Interferenz.py:74-83 | every pixel is the grey level of its sample divided by the field's peak amplitude (1 for a silent field); every grey level is a byte, and a silent field is drawn an even grey of 127 |
| Interference.BrightnessMonotone | LNDW/Interferenz.py:74-83 | a louder point of the field is never drawn darker than a quieter one |
| Interference.PeakIsBlackOrWhite | LNDW/Interferenz.py:75-82 | the loudest sample of a field that is not silent is drawn black or white |
| WaveFields.Fade | LNDW/welle_3.py:59 | the fade lies in `[0, 1]` for non-negative elapsed time; it is positive before 5 s and exactly 0 from 5 s on |
| WaveFields.FadeMonotone | LNDW/welle_3.py:59 | the fade never increases with time |
| WaveFields.FadedBound | LNDW/welle_3.py:61 | a sine value times a non-negative fade has magnitude at most the fade |
| Refraction.WavelengthToFreq | LNDW/welle_3.py:27-29 | the pitch always lies in `[100, 6000]` |
| Refraction.WavelengthToFreqBelow | LNDW/welle_3.py:27-29 | for non-negative wavelengths the pitch is at most 2200, so the upper clip never applies, and a longer wave never sounds higher |
| Refraction.Amplitude | LNDW/welle_3.py:42-61 | inside the lit band (elapsed time within 8 s and the front passed the pixel at most 3 s ago) the amplitude is the sine of the travelling-wave phase times the fade, and outside it 0; its magnitude never exceeds the fade; a non-zero amplitude occurs only within the first 5 s, although the filter keeps the source for 8 s |
| Refraction.StillBeforeArrival | LNDW/welle_3.py:50-54 | a pixel the front has not reached yet is silent |
| Refraction.Pulse | LNDW/welle_3.py:43-61 | the gating and fading of a sine value `x`: inside the lit band the value is `x` times the fade, outside it 0; bounded by the fade and silent from 5 s on |
| Refraction.PressWavelength | LNDW/welle_3.py:108-109 | the wavelength of a press is at least 20, and at most 250 for a non-negative duration |
| Refraction.PressWavelengthMonotone | LNDW/welle_3.py:108-109 | a longer press never gives a longer wave, and a press of 23/6 s or more gives the floor of 20 |
| Refraction.SourcePixel | LNDW/welle_3.py:138-143 | the sampled pixel always lies on the canvas |
| Refraction.SourcePixelNear | LNDW/welle_3.py:133-143 | from a pixel on the canvas a normalised sample shifts the sampled pixel by at most 5, and a silent sample does not shift it |
| Refraction.Overlay | LNDW/welle_3.py:149-156 | an overlay is drawn exactly when the magnitude exceeds 0.02, and its alpha then lies in `[80, 255]` |
| Refraction.OverlayMonotone | LNDW/welle_3.py:155 | a louder sample never gets a fainter overlay |
| Refraction.Prune | LNDW/welle_3.py:160 | exactly the sources at most 8 s old survive, in order, each as often as it occurred |
| Refraction.PruneAppend | LNDW/welle_3.py:160 | filtering a list with sources appended gives the filtered old list followed by the filtered new sources |
| Horror.Amplitude | LNDW/analog_horror.py:36-44 | up to the lifetime of 5 s the amplitude is the sine of the travelling-wave phase times the fade, and after it 0; its magnitude never exceeds the fade. There is no gate on the front and none on negative ages |
| Horror.Phase | LNDW/analog_horror.py:42 | the phase written in the script equals the shared travelling-wave phase `2 pi (dist - 100 elapsed) / wavelength` |
| Horror.Ringing | LNDW/analog_horror.py:37-44 | the lifetime gate and fade of a sine value `x`: up to the lifetime the value is `x` times the fade, after it 0; bounded by the fade, within `[-1, 1]` for non-negative ages |
| Horror.Colour | LNDW/analog_horror.py:102-108 | a positive sample is shaded only blue, with blue `int(val * 255)`; any other sample only red, with red `int(-val * 255)`; a normalised sample gives a valid colour |
| Horror.ColourMonotone | LNDW/analog_horror.py:102-108 | a sample farther from zero is never shaded dimmer, and the extremes 1 and -1 are full blue and full red |
| Horror.ColourMirror | LNDW/analog_horror.py:103-108 | opposite samples get mirrored colours: the same intensity in red instead of blue |
| Horror.ClickWavelength | LNDW/analog_horror.py:80-81 | the wavelength of a press is at least 5, and at most 150 for a non-negative duration |
| Horror.ClickWavelengthMonotone | LNDW/analog_horror.py:80-81 | a longer press never gives a longer wave, and a press of 1.45 s or more gives the floor of 5 |
| Horror.Prune | LNDW/analog_horror.py:111 | exactly the sources at most 5 s old survive, in order, each as often as it occurred |
| Horror.PruneAppend | LNDW/analog_horror.py:111 | filtering a list with sources appended gives the filtered old list followed by the filtered new sources |
| Horror.DroppedIsSilent | LNDW/analog_horror.py:38-39 | a source the filter drops (line 111) is silent at every later time, so later frames miss nothing |
| Spectrum.Band | LNDW/Punkt_welle.py:47-58 | each component of the band colour lies in `[0, 1]`. From 645 nm the colour is pure red; below 490 nm blue is full; from 490 to 580 nm green is full; from 580 nm red is full |
| Spectrum.BandContinuous | LNDW/Punkt_welle.py:47-58 | neighbouring bands meet: the colour is continuous at 440, 490, 510, 580 and 645 nm |
| Spectrum.EdgeFactor | LNDW/Punkt_welle.py:61-66 | the dimming factor lies in `[0.3, 1]`; it is 1 on `[420, 700]` and 0.3 at both ends |
| Spectrum.Adjust | LNDW/Punkt_welle.py:68-69 | the adjusted component is a byte; a zero component gives 0, and a full component at full factor gives 255 |
| Spectrum.WavelengthToRgb | LNDW/Punkt_welle.py:39-71 | the colour is always a valid colour; it is black outside `[380, 780]` and pure red `(255, 0, 0)` from 645 to 700 nm |
| Spectrum.LegendWavelength | LNDW/Punkt_welle.py:113-114 | the legend row wavelength lies in `(380, 780]`, and the top row is 780 nm |
| Spectrum.LegendFraction | LNDW/Punkt_welle.py:114 | `i / h` lies in `[0, 1)` for a row index `0 <= i < h` |
| Spectrum.LegendDescending | LNDW/Punkt_welle.py:113-114 | lower legend rows show strictly shorter wavelengths |
| Spectrum.Step | LNDW/Punkt_welle.py:156-200 | Escape restores the initial layout whatever else is held; with no keys nothing changes; a wavelength of at least 5 stays at least 5; without Escape each coordinate moves by at most 5; Q without E lowers wavelength 1 by one, but never below 5 |
| Spectrum.OppositeKeysCancel | LNDW/Punkt_welle.py:161-164 | holding W and S together leaves source 1's `y` where it is |
| Spectrum.WavesStayAudible | LNDW/Punkt_welle.py:29-36 | from the initial layout, after any run of frames, both wavelengths stay at 5 or more |
| Cylinder.ClampWidth | GP/TK_8/TK_8.py:28 | the clamped width is at most the width asked for and at most twice the distance to either edge; a width that fits is kept |
| Cylinder.Plot | GP/TK_8/TK_8.py:20-35 | the segment is exactly as wide as the clamped width and no wider than asked for. For a centre on the radius and a non-negative width it contains the centre. It lies within the outer radius. Its volume is the half-annulus formula |
| Cylinder.VolumeIsMeanRadius | GP/TK_8/TK_8.py:31-35 | the volume equals centre radius times width times angle times height |
| Cylinder.VolumeWithinSector | GP/TK_8/TK_8.py:31-35 | for a centre on the radius and non-negative sizes the volume lies between 0 and the whole sector `0.5 R^2 phi z` |
| Cylinder.CentreClip | GP/TK_8/TK_8.py:171-173 | for widths up to 1 the clipped centre lies in `[w/2, 1 - w/2]`, and a centre already there is kept |
| Cylinder.Update | GP/TK_8/TK_8.py:164-180 | for every slider width in `[0, 1]` the drawn segment is exactly that wide and lies inside the cylinder |
| Cylinder.CentreClipIdempotent | GP/TK_8/TK_8.py:171-173 | clipping an already clipped centre leaves it put |
| Cuboid.Vertices | GP/TK_8/TK8_cube.py:10-24 | there are eight vertices; vertex `i` is the corner given by its bit pattern (x high for 1 and 2 modulo 4, y high for 2 and 3 modulo 4, z high from 4 on); vertex 6 minus vertex 0 is the box's size |
| Cuboid.CornersDistinct | GP/TK_8/TK8_cube.py:13-24 | a box with positive edges has eight different corners |
| Cuboid.FacesAreFlat | GP/TK_8/TK8_cube.py:26-33 | each face's four vertices share the coordinate along the face's axis, so every face is flat and axis-aligned |
| Cuboid.FaceEdgesAreBoxEdges | GP/TK_8/TK8_cube.py:26-33 | going round a face, consecutive vertices differ in exactly one coordinate, so no face is drawn as a crossed quadrilateral |
| Cuboid.FaceCount | GP/TK_8/TK8_cube.py:26-33 | the number of faces using a vertex is at most the number of faces |
| Cuboid.EveryVertexOnThreeFaces | GP/TK_8/TK8_cube.py:26-33 | every vertex lies on exactly three faces: the six faces close the box |
| Cuboid.FaceCountStep | GP/TK_8/TK8_cube.py:26-33 | the count over a prefix of the face list grows by one exactly when the next face uses the vertex |
| Cuboid.Place | GP/TK_8/TK8_cube.py:97-100 | for edges up to 1 each clipped centre coordinate lies in `[s/2, 1 - s/2]` |
| Cuboid.PlacedBoxInside | GP/TK_8/TK8_cube.py:89-111 | for every edge length the sliders allow, all eight vertices of the placed box lie in the unit cube, and a box that already fits is not moved |
| Cuboid.VolumeOfBox | GP/TK_8/TK8_cube.py:111 | the title's volume `sx * sy * sz` is the product of the drawn box's extents, and it lies in `[0, 1]` for edges in `[0, 1]` |
| Cuboid.UnitProduct | GP/TK_8/TK8_cube.py:111 | a product of two numbers in `[0, 1]` lies in `[0, 1]` |
| Cuboid.InitialVolume | GP/TK_8/TK8_cube.py:52-60 | the opening title shows 0.027 for the 0.3 cube |
| Polarisation.XPos | GP/TK_41/Polarisation.py:111 | the arrow position lies on the track `[0, 10)` and is congruent to `frame * 0.05` modulo 10 |
| Polarisation.XPosPeriodic | GP/TK_41/Polarisation.py:111 | the arrow is back at the same position every 200 frames |
| Polarisation.Progress | GP/TK_41/Polarisation.py:116-117 | inside a cell of positive length the progress lies in `[0, 1]`; it is 0 at the cell's start and 1 at its end |
| Polarisation.ProgressBounds | GP/TK_41/Polarisation.py:117 | a quotient of a distance within the cell by the cell length lies in `[0, 1]` |
| Polarisation.ProbeAngleIsBiot | GP/TK_41/Polarisation.py:116-120 | inside the cell the angle is specific rotation times concentration times path covered (Biot's law); the cell length cancels out |
| Polarisation.ProbeAngleEnds | GP/TK_41/Polarisation.py:116-120 | the arrow enters the cell unturned, leaves it turned by the whole cell's rotation, and is never turned further in between |
| Polarisation.FractionOfRotation | GP/TK_41/Polarisation.py:116-120 | a fraction in `[0, 1]` of the whole rotation is never larger in magnitude than the whole rotation |
| Polarisation.Update | GP/TK_41/Polarisation.py:96-129 | when paused nothing changes and nothing is drawn. Otherwise the arrow sits at the track position and is red exactly inside the cell. Inside, the angle is the Biot angle. Outside, the angle is kept, except that it is reset to 0 in the first step of the track. The drawn direction is a unit vector |
| Polarisation.PassStartsLevel | GP/TK_41/Polarisation.py:111-114 | every pass starts level: at a frame that is a multiple of 200, with the cell starting at or beyond 0.05, the angle is 0 whatever came before |
| Mandelbrot.EscapedIsAbsAboveTwo | Mandelbrot/Mandelbrot.py:8 | the squared test `|z|^2 > 4` holds exactly when `abs(z) > 2` |
| Mandelbrot.EscapeLoop | Mandelbrot/Mandelbrot.py:7-11 | from iteration `n` the loop returns the first index at or after `n` whose orbit point has escaped, or `max_int` when the range runs out; no point before the result has escaped |
| Mandelbrot.EscapeTime | Mandelbrot/Mandelbrot.py:5-11 | the result lies in `[0, max_int]`; below `max_int` the orbit has escaped there; no earlier orbit point escaped |
| Mandelbrot.EscapeTimeAtLeastOne | Mandelbrot/Mandelbrot.py:6-9 | since `z = 0` never escapes, any positive `max_int` gives a result of at least 1 |
| Mandelbrot.StartNotEscaped | Mandelbrot/Mandelbrot.py:6 | the start `z = 0` lies inside radius 2 |
| Mandelbrot.EscapeTimeIsFirstEscape | Mandelbrot/Mandelbrot.py:5-11 | the escape time is the only `n` in `[0, max_int]` before which nothing escaped and at which the orbit escaped, unless `n == max_int` |
| Mandelbrot.NormSq | Mandelbrot/Mandelbrot.py:10 | squaring a complex number squares its modulus |
| Mandelbrot.IterateTriangle | Mandelbrot/Mandelbrot.py:10 | `|z^2| <= |z^2 + c| + |c|` |
| Mandelbrot.Growth | Mandelbrot/Mandelbrot.py:8-10 | with `r > 2` and `|c| <= r`, the next modulus exceeds `r` |
| Mandelbrot.EscapeGrows | Mandelbrot/Mandelbrot.py:8-10 | once outside radius 2 and at least as far out as `c`, the next orbit point is further out still |
| Mandelbrot.EscapedStaysEscaped | Mandelbrot/Mandelbrot.py:7-10 | for `c` inside radius 2, an orbit that has escaped stays escaped and keeps moving out, so stopping at the first escape never misjudges a point |
| Mandelbrot.OriginFixed | Mandelbrot/Mandelbrot.py:6-10 | the orbit of `c = 0` stays at 0 |
| Mandelbrot.OriginInSet | Mandelbrot/Mandelbrot.py:5-11 | `c = 0` scores `max_int` |
| Mandelbrot.FirstPoint | Mandelbrot/Mandelbrot.py:6-10 | the first orbit point is `c` itself |
| Mandelbrot.FarPointEscapesAtOnce | Mandelbrot/Mandelbrot.py:5-11 | a point outside radius 2 scores 1 for every positive `max_int` |
| Mandelbrot.EscapesAtOnce | Mandelbrot/Mandelbrot.py:5-11 | a point with `|c|^2 > 4` scores 1 for every positive `max_int` |
| Mandelbrot.Linspace | Mandelbrot/Mandelbrot.py:15 | `n` samples, the first `a`, the last `b` when `n >= 2`, with a constant step `(b - a)/(n - 1)` |
| Mandelbrot.Grid | Mandelbrot/Mandelbrot.py:17-22 | the image has `rows` rows of `|xs|` entries, and entry `(i, j)` is the escape time of `xs[j] + i ys[i]` |
| Mandelbrot.MandelbrotSetAsWritten | Mandelbrot/Mandelbrot.py:14-23 | the code as written fails (index error) exactly when `1 <= width < height`; otherwise it gives a `height` by `width` image |
| Mandelbrot.AsWrittenMissesTop | Mandelbrot/Mandelbrot.py:16-22 | for a wide image the top row of the as-written image samples an imaginary part strictly below `y_max` |
| Mandelbrot.TopRowGap | Mandelbrot/Mandelbrot.py:16 | in an evenly spaced sequence with a positive step, every sample before the last is below the last |
| Mandelbrot.MandelbrotSet | Mandelbrot/Mandelbrot.py:14-23 | the corrected image is defined for every size: `height` rows of `width` entries, and entry `(i, j)` is the escape time at the `j`-th real and `i`-th imaginary sample |
| Mandelbrot.CorrectedCoversWindow | Mandelbrot/Mandelbrot.py:14-23 | the corrected image's corner pixels sample the window's corners |
| Mandelbrot.OnAxisScore | Mandelbrot/Mandelbrot.py:5-11 | `-2 + 0i` stays on the circle of radius 2 and scores 2 with `max_int = 2` |
| Mandelbrot.InsideScoresTwo | Mandelbrot/Mandelbrot.py:5-11 | a point within radius 2 scores 2 when `max_int` is 2: neither `z_0 = 0` nor `z_1 = c` has escaped |
| Mandelbrot.AboveScore | Mandelbrot/Mandelbrot.py:5-11 | `-2 + 1.5i` escapes at step 1 |
| Mandelbrot.AsWrittenDiffers | Mandelbrot/Mandelbrot.py:16 | for the script's window with a 3 x 2 image and `max_int = 2`, pixel `(1, 0)` as written scores 2 (it samples `-2 + 0i`), while the corrected image scores 1 (it samples `-2 + 1.5i`) |
| Mandelbrot.AsWrittenPixel | Mandelbrot/Mandelbrot.py:15-22 | the as-written pixel `(1, 0)` of that image scores 2 |
| Mandelbrot.CorrectedPixel | Mandelbrot/Mandelbrot.py:15-22 | the corrected pixel `(1, 0)` of that image scores 1 |

## Left out

- **Drawing, windows, sliders and event loops** (matplotlib, pygame): slider values and key states are parameters, and only the values that would be drawn are modelled.
  - Wave scripts: colour arrays and ring radii are modelled; the circles themselves are not.
  - `format_phi`, `compute_intensity_colored`, `draw_glow`, legend label placement and the plotting of order against density are drawing code.
- **Audio output** (`generate_tone` and playback in `Wasserwelle_2.py`): only the frequency chosen for each source is modelled.
- **Clocks**: `time.time()` and frame counters are parameters.
- **Random number generation**: each draw is a parameter, so the model states what happens for every possible draw. The distributions are not modelled.
- **Spatial index**: the `cKDTree` neighbour search is not modelled. The neighbour index lists are inputs, since the tree itself is a foreign library.
- **Spline smoothing** (`smooth_points` in `umwelt.py`, via `scipy.interpolate.splprep`/`splev`): a foreign library, left out. The moving-average smoother of `cyano_sim.py` is modelled.
- **Floating-point rounding and `float32` storage**: all arithmetic is exact. Bounds that hold over the reals may be off by an ulp in the program.
- **`sin`, `cos`, `sqrt`**: modelled only through the facts in `Maths.Valid()`.
- **The `x ** 0.8` gamma of `Punkt_welle.py`**: modelled only through the facts in `Gamma.Valid()` (fixes 0 and 1, maps `[0, 1]` into itself).
- Spectrum.Adjust: states only the byte range and the two end values, because the gamma curve is abstract.
- Spectrum.WavelengthToRgb: states only black outside the visible range, pure red on `[645, 700]` and valid bytes, because the gamma curve is abstract.
- Order.BlockOrder: requires a non-zero block size `l`; the script always passes a positive constant, and `l = 0` would divide by zero in the source.
- WaveFields.MaxAbs: requires a non-empty field; the scripts always build a full grid.
- Refraction.WavelengthToFreq: requires a wavelength other than -10, where the source's `22000 / (wavelength + 10)` raises ZeroDivisionError; pressed wavelengths are at least 20 (`Refraction.PressWavelength`).
- Refraction.Amplitude: requires a non-zero wavelength, where the source's phase would raise ZeroDivisionError; pressed wavelengths are at least 20. `Refraction.StillBeforeArrival` carries the same requires.
- Horror.Phase: requires a non-zero wavelength, where the source's phase would raise ZeroDivisionError; clicks only produce wavelengths of at least 5 (`Horror.ClickWavelength`).
- Horror.Amplitude: requires a non-zero wavelength for the same reason as `Horror.Phase`. `Horror.DroppedIsSilent` carries the same requires.
- Interference.Amplitude: requires a non-zero wavelength, where the source's phase would raise ZeroDivisionError; clicks only produce wavelengths of at least 20 (`WaveFields.ClickWavelength`). `Interference.AmplitudeSum` and the lemmas about it (`DarkBeforeArrival`, `DroppedStaysSilent`, `AmplitudeSumAppend`, `PruneKeepsLaterSum`) carry the same requires.
- WaveFields.WavePhase: requires a non-zero wavelength, like the phases built on it (`WaveFields.SplitPhase`, `PhaseMovesWithFront`, `PhasePeriod`); the source would divide by zero.
- Ripples.Update: requires a non-zero wavelength; clicks only produce wavelengths of at least 20 (`WaveFields.ClickWavelength`).
- Refraction.PressWavelength: requires `1 + 3 · duration` to be non-zero; the source divides by it, and press durations are never negative.
- Relaxation.Relax: requires more than one point; every chain has 30 points, and a one-point chain would leave the loop empty in the source.
- Mandelbrot.Linspace: takes a `nat` sample count; `np.linspace` rejects negative counts.
- Mandelbrot.EscapeLoop: tests escape as `|z|² > 4`, which is the same test as the source's `abs(z) > 2` (proved in `Mandelbrot.EscapedIsAbsAboveTwo`) but avoids the square root.
- **Auxiliary scripts that only provide context** (`TK_33_34`, `TK_5` and the other course sheets outside `TK_8` and `TK_41`) are not part of this model.

## Findings

| source | as written | input that shows it | evidently intended | confidence | as-written member | corrected member |
|---|---|---|---|---|---|---|
| Mandelbrot/Mandelbrot.py:16 | the imaginary axis is sampled with `np.linspace(y_min, y_max, width)`, i.e. `width` samples, while the grid has `height` rows | width 3, height 2, window `(-2, 1, -1.5, 1.5)`, `max_int` 2: row 1 of column 0 uses `y = 0` and scores 2 instead of the top edge `y = 1.5`, which scores 1; with `height > width` the row index runs past the samples (the script's own call has `width == height`, where both agree) | `np.linspace(y_min, y_max, height)`, so the rows span the whole window | not executed | Mandelbrot.MandelbrotSetAsWritten (with Mandelbrot.AsWrittenDiffers, Mandelbrot.AsWrittenMissesTop) | Mandelbrot.MandelbrotSet (with Mandelbrot.CorrectedCoversWindow) |
