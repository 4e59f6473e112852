# locate-obj in Dafny

`locate-obj.py` overlays a drone video with the positions of objects on the
ground. It reads the drone's DJI-style SubRip (`.srt`) telemetry, builds a
pinhole camera from the intrinsic matrix `K` and the drone's attitude, and
casts the ray through a clicked pixel into the world. The ray is then
intersected with flat ground (east-north-up or UTM), with a spherical Earth
(ECEF), or with an elevation raster (DEM) by fixed-point iteration. When
landmarks of known position are recognised in the frame, the camera
rotation is corrected from one landmark or from the first two. Points are
drawn back through the OpenGL projection and view matrices.

This project models that core over unbounded reals and sequences:

| file | module | what it holds |
|---|---|---|
| `outcomes.dfy` | `Outcomes` | `Option` and `Result` |
| `linalg.dfy` | `LinAlg` | 3-vectors, 3x3 and 4x4 matrices, orthogonality |
| `arith.dfy` | `RealArith` | small steps of real division used by the camera proofs |
| `frames.dfy` | `Frames` | the fixed axis permutations between drone, world, camera and OpenGL axes; the camera rotation and the ray rotation |
| `camera.dfy` | `Camera` | `inv_K`, `reta3D`, `build_projection_matrix`, `build_view_matrix` |
| `ground.dfy` | `Ground` | the flat ENU and UTM ground intersections, the ECEF sphere intersection, the upward orientation of the click ray |
| `terrain.dfy` | `Terrain` | Python `round`, `get_DEM_alt`, `find_DEM_intersection` |
| `pose.dfy` | `Pose` | `get_rotation_from_vectors`, `get_R_one_roi`, `get_R_roi`, the landmark confidence filter and the choice between the two corrections |
| `text.dfy` | `Text`, `Patterns` | Python `str.strip`, `str.split(sep)`, `str.split()`, `int()`; the `DiffTime` search and the bracket `findall` |
| `telemetry.dfy` | `Telemetry` | `parse_srt`, with a renderer for frames and the round trip through it |

Numerical primitives that the script takes from NumPy and OpenCV are
parameters of the model: `np.sqrt` in the ECEF solver, and `norm_vec`,
`np.arccos` and `cv2.Rodrigues` in the pose correction. Each lemma states
the law it needs of them, for example that `arccos` maps `[-1, 1]` into
`[0, π]`. The conversion from geodetic to ENU coordinates is a parameter
too, so the landmark filter can be stated without `pymap3d`.

The model follows the code wherever the code and its surrounding
description differ:

- ECEF root. The ECEF solver uses only the root `(-b - √disc) / 2a`. When that
  root is negative it reports that the ray points away, even if the other
  root lies ahead. This happens whenever the start is inside the sphere
  (`Ground.ECEFInsideStartPointsAway`).
- DEM pixel rounding. The DEM lookup rounds fractional pixel coordinates to
  the nearest integer with ties to even, as Python's `round` does. It does
  not truncate to the cell that contains the point.
- Ray origin. At line 783 the ray builder is given the drone position where
  `reta3D` expects the extrinsic translation, so the origin of that ray is
  not the camera centre. Only the direction is used afterwards.
  `Camera.RayOriginIsCameraCentre` states what the origin is when the
  extrinsic translation is passed.
- DEM search. `find_DEM_intersection` calls the lookup as written.
  `Terrain.FindDemIntersection` takes the axis order as a parameter: with
  `RowCol` it is the script's search, with `ColRow` the corrected one. The
  two can differ (`Terrain.DemSearchAxesCounterexample`).
- Three or more landmarks. With three or more landmarks, `get_R_roi` prints
  a warning and uses only the first two (`Pose.TwoLandmarksUseFirstTwo`).

## Model

| member | source | states |
|---|---|---|
| Text.Strip | locate-obj.py:88 | the stripped text neither starts nor ends with a Python whitespace character |
| Text.StripTrimmed | locate-obj.py:88 | text without surrounding whitespace is left unchanged by strip |
| Text.StripPadding | locate-obj.py:99 | strip removes any whitespace padding and nothing else: padded and unpadded text strip alike |
| Text.SplitOn | locate-obj.py:88 | `split(sep)` gives at least one piece; the pieces joined with `sep` give back the text, no piece contains `sep`, and every cut is at the leftmost occurrence: each piece but the last followed by `sep` has its first occurrence of `sep` right after the piece |
| Text.CutAtFirstMatch | locate-obj.py:88 | the text before the first occurrence of `sep`, followed by `sep`, has its first occurrence of `sep` at the same place |
| Text.SplitJoin | locate-obj.py:92 | splitting a join of pieces gives back the pieces, when `sep` first occurs in each piece-plus-separator at the separator and not in the last piece |
| Text.FirstMatchLeast | locate-obj.py:100 | the split point is the leftmost occurrence of the separator |
| Text.WordsOfJoin | locate-obj.py:112 | `split()` of non-empty space-free words joined by spaces returns exactly those words |
| Text.ParseShowInt | locate-obj.py:95 | `int()` reads the decimal rendering of every integer, negative ones included, back to that integer |
| Text.ParseIntIgnoresPadding | locate-obj.py:95 | `int()` gives the same result with or without surrounding padding of the characters it skips: space, `\t\n\v\f\r` and non-ASCII whitespace, but not the separators U+001C to U+001F |
| Text.TrimPadding | locate-obj.py:88-95 | for both `str.strip` and `int()`, trimming padded text equals trimming the text, when the padding consists of the characters that trim removes |
| Text.IntKeepsSeparators | locate-obj.py:95 | `"1"` followed by U+001C strips to `"1"`, yet `int()` rejects it |
| Text.IntSkipsSpaceAndTab | locate-obj.py:95 | `int(" 1\t")` reads 1 |
| Patterns.SearchDiffTimeNone | locate-obj.py:103 | the `DiffTime: (\d+)ms` search fails exactly when no position of the line holds the tag, at least one digit and `ms` |
| Patterns.SearchDiffTimeLeftmost | locate-obj.py:103-104 | the search returns the number at the leftmost position where the pattern matches |
| Patterns.DiffTimeOfRendered | locate-obj.py:103-104 | a line `DiffTime: <n>ms` followed by anything yields `n` |
| Patterns.BracketGroupsOfBracketed | locate-obj.py:109 | the non-greedy `\[(.*?)\]` findall recovers, in order, every group written as `[g]` when no group holds `]` or a line break |
| Telemetry.RemoveColons | locate-obj.py:115 | the key has no colon and keeps every other character of the token |
| Telemetry.PairsSpec | locate-obj.py:111-117 | a group's keys are exactly its colon tokens at positions before the last token, with the colons removed; each key maps to the token after its last such occurrence |
| Telemetry.OverlaySpec | locate-obj.py:109-117 | across the groups of a line, a key is present when some group has it, and its value comes from the last group that has it |
| Telemetry.Merge | locate-obj.py:119-126 | the record has the fixed fields and the bracket keys; a bracket key overwrites a fixed field of the same name, and every other fixed field keeps its value |
| Telemetry.ParseLines | locate-obj.py:92-107 | the checks run in line order and the first that fails names the error, each in both directions: `BadFrameIndex` exactly when line 0 fails `int()`; `BadTimeRange` exactly when line 0 passes and line 1 does not split into two times; `MissingDiffTime` exactly when lines 0 and 1 pass and line 2 has no `DiffTime`; `MissingLine(n)` exactly when there are n < 5 lines and all checks on them pass; a record exactly when there are at least five lines and all three checks pass |
| Telemetry.ParseBlock | locate-obj.py:91-126 | a block is cut at line breaks and its lines parsed (definition; its properties are those of `Telemetry.ParseLines`) |
| Telemetry.ParseSrt | locate-obj.py:83-128 | the file is stripped, cut at blank lines, and the blocks parsed in order (definition; its properties are those of `Telemetry.ParseBlocksOk` and `Telemetry.ParseBlocksErr`) |
| Telemetry.Collect | locate-obj.py:91-128 | the file parses when every block parses, giving one record per block in order; otherwise the error names the first failing block and its reason |
| Telemetry.ParseBlocksOk | locate-obj.py:88-128 | a successful parse has as many records as blocks, and record i is block i's parse |
| Telemetry.ParseBlocksErr | locate-obj.py:88-128 | a failed parse names a block that fails with that reason, and every earlier block parses |
| Telemetry.ParseGoodLines | locate-obj.py:92-126 | five lines whose fields read back to a frame parse to that frame's record, whatever lines follow |
| Telemetry.ParseRenderedBlock | locate-obj.py:91-126 | a frame rendered as a five-line block parses back to its record |
| Telemetry.SrtBlocks | locate-obj.py:88 | cutting a rendered file at blank lines gives back the rendered blocks |
| Telemetry.ParseRenderedSrt | locate-obj.py:83-128 | a non-empty sequence of frames rendered as a file parses back to their records, one per frame, in order |
| Camera.InvK | locate-obj.py:68-76 | the closed-form inverse built from `fx`, `fy`, `cx`, `cy` (definition; `Camera.InvKLeftInverse` and `Camera.InvKRightInverse` state that it inverts `K`) |
| Camera.InvKLeftInverse | locate-obj.py:68-76 | for an intrinsic matrix (no skew, last row `0 0 1`) with non-zero focal lengths, `inv_K(K) K = I` |
| Camera.InvKRightInverse | locate-obj.py:68-76 | and `K inv_K(K) = I` |
| Camera.InvKReadsFourEntries | locate-obj.py:68-72 | `inv_K` depends only on `fx`, `fy`, `cx`, `cy` |
| Camera.InvKIgnoresSkew | locate-obj.py:68-76 | a matrix with skew whose `inv_K` is not its inverse |
| Camera.Ray3D | locate-obj.py:299-303 | `reta3D`: origin `-Rᵀ t`, direction `Rᵀ K⁻¹ (u, v, 1)` (definition; the next two rows state its meaning) |
| Camera.RayOriginIsCameraCentre | locate-obj.py:299-303 | given `Rᵀ` and `t = -R c`, the ray starts at the camera centre `c` |
| Camera.RayProjectsToItsPixel | locate-obj.py:299-303 | every point of the ray through pixel `(u, v)` projects through `K [R \| t]` back to a multiple of `(u, v, 1)` |
| Camera.BuildProjectionMatrix | locate-obj.py:344-356 | `build_projection_matrix` as written (definition; the `Camera.Projection` rows state what it maps) |
| Camera.BuildProjectionMatrixCorrected | locate-obj.py:344-356 | the same with the row offset `2cy/h - 1` (definition; `Camera.CorrectedProjectionRowMatchesPixel` states what it maps) |
| Camera.ProjectionDepthRange | locate-obj.py:344-356 | points on the near plane map to depth -1 and on the far plane to +1 |
| Camera.ProjectionColumnMatchesPixel | locate-obj.py:344-356 | the horizontal clip coordinate of a camera point is the pixel column `u` mapped linearly to `[-1, 1]` |
| Camera.ProjectionRowAsWritten | locate-obj.py:351-353 | the vertical clip coordinate as written is the NDC of row `v + h - 2cy`, not of the pixel row `v` |
| Camera.CorrectedProjectionRowMatchesPixel | locate-obj.py:351-353 | with row offset `2cy/h - 1` the vertical clip coordinate is the NDC of the pixel row `v` |
| Camera.ProjectionRowCounterexample | locate-obj.py:344-356 | for `f = 1000`, `c = (960, 500)` on 1920x1080 the principal point maps to NDC y = 2/27 corrected but -2/27 as written |
| Camera.ProjectionsAgreeAtCentredPrincipalPoint | locate-obj.py:352-353 | when `cy` is half the height the as-written and corrected matrices coincide |
| Camera.BuildViewMatrix | locate-obj.py:358-364 | `build_view_matrix`: `Rᵀ` with the column `-Rᵀ t` (definition; the next two rows state what it maps) |
| Camera.ViewMatrixApplies | locate-obj.py:358-364 | the view matrix maps a point `X` to `Rᵀ (X - t)` |
| Camera.ViewMatrixInvertsPose | locate-obj.py:358-364 | for orthogonal `R`, the view matrix undoes `X ↦ R X + t` |
| Frames.FrameConstantsAreSignedPermutations | locate-obj.py:16-22 | each axis constant is a signed permutation and orthogonal; the OpenGL flip is its own transpose |
| Frames.OppositeFrameConstantsInvert | locate-obj.py:16-21 | each transposed constant inverts its partner |
| Frames.CameraToWorldIsComposite | locate-obj.py:16-21 | camera-to-world is camera-to-drone followed by drone-to-world, and likewise for the opposite direction |
| Frames.CameraRotation | locate-obj.py:716 | the world-to-camera rotation built from the drone attitude (definition; `Frames.CameraRotationOrthogonal` states its properties) |
| Frames.RayRotation | locate-obj.py:783 | the camera-to-world rotation given to the ray builder (definition; the next row relates it to `Frames.CameraRotation`) |
| Frames.RayRotationIsTransposeOfCameraRotation | locate-obj.py:783 | the ray rotation at line 783 is the transpose of the camera rotation built at line 716 |
| Frames.CameraRotationOrthogonal | locate-obj.py:716 | for an orthogonal drone attitude the camera rotation is orthogonal, and the ray rotation is its two-sided inverse |
| Frames.LevelDroneRayRotation | locate-obj.py:783 | a level drone's ray rotation is the camera-to-world constant |
| Ground.OrientUp | locate-obj.py:786-787 | the oriented ray points up or level; a ray pointing up or level is returned unchanged, and a ray pointing down is negated |
| Ground.FindGroundIntersectionENU | locate-obj.py:225-247 | fails with "parallel" exactly when the direction is horizontal; otherwise the point lies on the ray and at height 0 |
| Ground.FindGroundIntersectionUTM | locate-obj.py:201-223 | the same, with the result at height `alt_abs - alt_rel` |
| Ground.UTMIsLiftedENU | locate-obj.py:201-247 | the UTM solver is the ENU solver lifted by `alt_abs - alt_rel` and fails on the same inputs |
| Ground.ENUScaleInvariant | locate-obj.py:225-247 | scaling the direction by a non-zero factor does not change the ENU result |
| Ground.ENUIgnoresOrientation | locate-obj.py:785-791 | flipping the click ray upward does not change the flat ENU result |
| Ground.FindGroundIntersectionECEF | locate-obj.py:249-297 | the sphere solve: "misses" on a negative discriminant, the near root `(-b - √disc) / 2a` otherwise, "points away" when that root is negative (definition; its properties are the `Ground.ECEF` lemmas below) |
| Ground.ECEFHitsSphere | locate-obj.py:274-291 | a returned point is on the sphere and lies at a non-negative ray parameter, the near root |
| Ground.ECEFMissesIffNoHit | locate-obj.py:279-281 | "misses" is reported exactly when no point of the line lies on the sphere |
| Ground.ECEFFirstHit | locate-obj.py:284-291 | no point of the ray before the returned one reaches the sphere |
| Ground.ECEFPointsAwayFromOutside | locate-obj.py:284-286 | from outside the sphere, "points away" means no forward point of the ray reaches it |
| Ground.ECEFInsideStartPointsAway | locate-obj.py:284-286 | from inside the sphere "points away" is always reported, although the far root lies ahead on the sphere |
| Terrain.RoundHalfEven | locate-obj.py:457-458 | `round` is within half of its argument, and at a tie it is even |
| Terrain.RoundUnique | locate-obj.py:457-458 | an integer strictly within half of the argument is the rounded value |
| Terrain.RoundTiesToEven | locate-obj.py:457-458 | 0.5, 1.5, 2.5, -0.5 and -1.5 round to 0, 2, 2, 0 and -2 |
| Terrain.DemAltitude | locate-obj.py:455-462 | the lookup with the transform's output read as `(col, row)` (definition; `Terrain.DemAltitudeNearCorner` states what it reads) |
| Terrain.DemAltitudeAsWritten | locate-obj.py:455-462 | the lookup as written, output read as `(row, col)` (definition; `Terrain.DemAltitudeAsWrittenTransposes` states what it reads) |
| Terrain.Altitude | locate-obj.py:455-462 | the lookup of either axis order is the corrected lookup for `ColRow` and the as-written lookup for `RowCol` |
| Terrain.Cell | locate-obj.py:459-462 | a cell has a value exactly inside the raster, and the value is the raster's |
| Terrain.DemAltitudeNearCorner | locate-obj.py:455-462 | corrected lookup: a position within half a pixel of cell `(row, col)` reads that cell, and there is a value exactly when the cell is in the raster |
| Terrain.DemAltitudeAsWrittenTransposes | locate-obj.py:455-462 | the lookup as written reads cell `(col, row)` for that position |
| Terrain.DemAxesCounterexample | locate-obj.py:455-462 | a one-row raster where the as-written lookup finds nothing and the corrected lookup finds the elevation |
| Terrain.DemSearch | locate-obj.py:159-177 | the search: nothing off the raster, the point when within 0.01 of the terrain, otherwise a step back by the gap along the direction, giving up after 50 steps (definition; its properties are the `Terrain.DemSearch` lemmas below) |
| Terrain.DemLookupsBounded | locate-obj.py:159-177 | the search performs at most 51 raster lookups |
| Terrain.DemSearchSound | locate-obj.py:159-177 | a returned point is on the raster and within 0.01 of the terrain height under it |
| Terrain.DemSearchStaysOnRay | locate-obj.py:159-177 | a returned point lies on the line through the start along the direction |
| Terrain.DemSearchStartOnTerrain | locate-obj.py:161-167 | a start already within 0.01 of the terrain is returned after one lookup |
| Terrain.DemSearchOffRaster | locate-obj.py:161-163 | a start off the raster gives nothing after one lookup |
| Terrain.DemSearchMatchesFlatSolver | locate-obj.py:159-177 | over locally flat terrain, a direction whose vertical component is exactly 1 (for a unit direction, only the vertical ray) lands in one step where the UTM flat solver puts it |
| Terrain.FlatShallowRayTimesOut | locate-obj.py:159-177 | over flat terrain, a direction with vertical component `d` in `[0, 1)` closes only the fraction `d` of the height per step; when `gap (1 - k d)` stays above 0.01 for the `k` steps left, the search gives up with nothing |
| Terrain.ShallowRayCounterexample | locate-obj.py:159-177 | a unit ray about 0.57 degrees above the horizontal, 100 above flat ground: the UTM flat solver meets the ground, the terrain search gives nothing |
| Terrain.FindDemIntersection | locate-obj.py:159-177 | the loop, over the lookup of either axis order, returns what the recursive definition of the search returns over that lookup; the script's call at line 789 is the `RowCol` instance |
| Terrain.DemSearchAxesCounterexample | locate-obj.py:159-177 | on the one-row raster, a start on the terrain is found by the search over the corrected lookup and not by the search over the lookup as written |
| Pose.Clip | locate-obj.py:49 | `np.clip` gives a value in range, the value itself when it is in range, and the nearer bound otherwise |
| Pose.RotationFromVectors | locate-obj.py:44-58 | the angle is `θ` or `2π - θ`, whichever is smaller (at most π), and the rotation is Rodrigues of that angle about the normalised cross axis |
| Pose.FirstBranchAlwaysTaken | locate-obj.py:49-58 | with `arccos` in `[0, π]` the returned angle is always `θ` |
| Pose.OneRoiCorrection | locate-obj.py:464-470 | the correction is one of the two candidates (towards the pixel ray or its opposite), has the smaller angle, and on a tie is the first |
| Pose.GetROneRoi | locate-obj.py:464-472 | the chosen correction applied after `R` (definition; `Pose.OneRoiStaysOrthogonal` states its property) |
| Pose.OneRoiWithinRightAngle | locate-obj.py:464-470 | when `arccos` maps `[-1, 1]` into `[0, π]` with `arccos(-c) = π - arccos(c)`, and `norm_vec` commutes with negation, the chosen correction turns by at most π/2 |
| Pose.OneRoiStaysOrthogonal | locate-obj.py:464-472 | when `R` and every Rodrigues rotation are orthogonal, the corrected rotation is orthogonal |
| Pose.Reject | locate-obj.py:483 | the Gram-Schmidt step leaves a vector orthogonal to the unit vector `u_0` |
| Pose.AlignMapsPairs | locate-obj.py:482-495 | for orthonormal pairs, `B Aᵀ` maps `u_0` to `v_0`, `u_1` to `v_1` and `u_0 × u_1` to `v_0 × v_1` |
| Pose.GetRRoi | locate-obj.py:474-495 | `get_R_roi`: the alignment of the two orthonormalised landmark directions with the two orthonormalised pixel rays (definition; `Pose.GetRRoiAlignsLandmarks` states what it maps) |
| Pose.NormaliseUnit | locate-obj.py:78-81 | a `norm_vec` that divides by the length gives a unit vector for a nonzero input |
| Pose.UnitPairOrthonormal | locate-obj.py:479-488 | for a nonzero first direction and a second not parallel to it, the normalised first direction and the normalised rejection of the second form an orthonormal pair |
| Pose.GetRRoiAlignsLandmarks | locate-obj.py:474-495 | with `norm_vec` dividing by the length and neither pair degenerate, `R_roi` turns the direction from the drone to the first landmark onto the first pixel ray, and the part of the second landmark's direction across the first onto the matching part of the second ray |
| Pose.TwoLandmarksUseFirstTwo | locate-obj.py:474-495 | with more than two landmarks the result equals the result on the first two |
| Pose.GoodLandmarks | locate-obj.py:747-753 | every sighting scoring strictly above 0.65 is kept, and every kept landmark comes from such a sighting |
| Pose.GoodLandmarksAppend | locate-obj.py:747-753 | the filter works sighting by sighting: filtering a concatenation concatenates the filtered parts |
| Pose.ThresholdIsStrict | locate-obj.py:748 | a sighting scoring exactly 0.65 is dropped |
| Pose.CorrectedRotation | locate-obj.py:755-758 | no landmark gives no correction, one gives the one-landmark correction, two or more give the two-landmark correction on the first two |

## Left out

- File reading, the video loop, the GUI (OpenCV windows, mouse clicks, drawing on the image), OpenGL rendering (`draw_cone_sphere`, `render`, `draw_opengl`) and template matching are I/O. Their results enter the model as parameters: pixels, confidences and landmark positions.
- `norm_vec`, `np.sqrt`, `np.arccos` and `cv2.Rodrigues` are parameters of the model, each with the law a lemma needs. Floating-point rounding, `inf` and `nan` are not modelled; all arithmetic is on exact reals.
- Ground.FindGroundIntersectionECEF: requires a non-zero direction, because the script divides by `2a` and a zero direction gives IEEE `inf`/`nan`.
- The geodetic conversions (trigonometric geodetic-to-ECEF, the ECEF result back to latitude and longitude, `pymap3d` ENU, `utm.from_latlon`) are not modelled. The ECEF solver starts from an ECEF point and returns an ECEF point.
- `find_ground_intersection` (the flat solver on latitude and longitude) is left out. It needs `cos` of the latitude and the metres-per-degree constant, and the main loop does not call it.
- `yaw_pitch_roll_to_rotation_matrix` is left out because it needs trigonometry. The drone attitude is a parameter, assumed orthogonal where a lemma needs that.
- `distance_is_minimal` and `get_homography` are called only from commented-out code.
- The DEM raster is given with the inverse of its georeference (`~dem_transform`) as an affine map; rasterio is not modelled. Its column bound is the row's length, which for a NumPy array is `shape[1]`.
- Pose.AlignMapsPairs: states where `B Aᵀ` sends the two landmark directions and their cross product, but not that the product is orthogonal.
- Pose.GetRRoiAlignsLandmarks: assumes that `norm_vec` divides a nonzero vector by a length `norm` whose square is the vector's squared norm; `np.linalg.norm` itself is not modelled. A landmark at the drone position or two parallel directions are excluded, because `norm_vec` then divides by zero.
- `int()` accepts only ASCII digits here, and `\d` and `str.isspace` cover only the characters listed in `Text.IsDigit` and `Text.IsSpace`. Python also accepts other Unicode digits.
- Text.ParseShowInt: does not model the limit of 4300 digits that CPython 3.11 and later put on `int()` of a string; longer integers raise `ValueError` there. The same holds for `int()` of the `DiffTime` digits in `Patterns.DiffTimeOf`.
- Terrain.DemSearchMatchesFlatSolver: covers only a vertical component of exactly 1. For shallower rays the search closes only part of the height per step and can run out of its 50 steps over flat ground where the flat solver succeeds (`Terrain.FlatShallowRayTimesOut`, `Terrain.ShallowRayCounterexample`).
- A parsed frame is a `map`, so the key order of Python's `dict` is not modelled.
- The rotation `R_roi` only feeds the drawing at lines 808-809, so the model stops at the rotation.

## Findings

| source | as written | input that shows it | evidently intended | confidence | as-written member | corrected member |
|---|---|---|---|---|---|---|
| locate-obj.py:455-462 | `row, col = ~dem_transform * (east, north)`; the inverse transform returns `(col, row)`, so the raster is read at `[col, row]` | a 1x2 raster with identity georeference at `(east, north) = (1, 0)`: as written gives no value, intended gives 20 | `col, row = ~dem_transform * (east, north)` | not executed; high (rasterio's affine maps `(col, row)` to `(x, y)`) | Terrain.DemAltitudeAsWritten (Terrain.DemAxesCounterexample, Terrain.DemAltitudeAsWrittenTransposes, Terrain.DemSearchAxesCounterexample) | Terrain.DemAltitude (Terrain.DemAltitudeNearCorner) |
| locate-obj.py:353 | `proj[1, 2] = 1 - (2 * cy / height)` | `fx = fy = 1000`, `c = (960, 500)`, 1920x1080: the principal point lands at NDC y = -2/27 instead of 2/27 | `proj[1, 2] = (2 * cy / height) - 1`, because the image is read back with `glReadPixels` (line 814) and flipped vertically (line 410), so image row 0 is NDC y = +1 | not executed; medium (invisible when `cy` is half the height) | Camera.BuildProjectionMatrix (Camera.ProjectionRowCounterexample, Camera.ProjectionRowAsWritten) | Camera.BuildProjectionMatrixCorrected (Camera.CorrectedProjectionRowMatchesPixel) |
