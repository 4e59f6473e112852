/** The fixed axis conventions of the script and how they compose.

    Three frames appear: the world frame (local east-north-up, the script's
    "mundo"), the drone body frame of the gimbal telemetry, and the OpenCV
    camera frame (x right, y down, z forward). Each fixed change of frame is
    a signed permutation matrix; the OpenGL camera frame (y up, z backward)
    adds one more. The telemetry rotation `R_drone` sits in the middle of
    the chain and is arbitrary.
 */
module Frames {
  import opened LinAlg

  /** Every entry is -1, 0 or 1. */
  predicate UnitEntries(v: Vec3) {
    && (v.x == -1.0 || v.x == 0.0 || v.x == 1.0)
    && (v.y == -1.0 || v.y == 0.0 || v.y == 1.0)
    && (v.z == -1.0 || v.z == 0.0 || v.z == 1.0)
  }

  /** Exactly one entry is nonzero. */
  predicate OneNonzero(v: Vec3) {
    || (v.x != 0.0 && v.y == 0.0 && v.z == 0.0)
    || (v.x == 0.0 && v.y != 0.0 && v.z == 0.0)
    || (v.x == 0.0 && v.y == 0.0 && v.z != 0.0)
  }

  /** A permutation matrix some of whose ones are negated: each row and each
      column holds exactly one entry, and that entry is 1 or -1. */
  predicate IsSignedPermutation(m: Mat3) {
    && UnitEntries(m.r0) && UnitEntries(m.r1) && UnitEntries(m.r2)
    && OneNonzero(m.r0) && OneNonzero(m.r1) && OneNonzero(m.r2)
    && OneNonzero(Col0(m)) && OneNonzero(Col1(m)) && OneNonzero(Col2(m))
  }

  /** A unit row with one nonzero entry has unit length. */
  lemma UnitRowLength(v: Vec3)
    requires UnitEntries(v) && OneNonzero(v)
    ensures Dot(v, v) == 1.0
  {
  }

  /** Two vectors that are never both nonzero in the same coordinate are orthogonal. */
  lemma DisjointSupportOrthogonal(u: Vec3, v: Vec3)
    requires u.x == 0.0 || v.x == 0.0
    requires u.y == 0.0 || v.y == 0.0
    requires u.z == 0.0 || v.z == 0.0
    ensures Dot(u, v) == 0.0
  {
  }

  lemma UnitRowsLength(u0: Vec3, u1: Vec3, u2: Vec3)
    requires UnitEntries(u0) && UnitEntries(u1) && UnitEntries(u2)
    requires OneNonzero(u0) && OneNonzero(u1) && OneNonzero(u2)
    ensures Dot(u0, u0) == 1.0 && Dot(u1, u1) == 1.0 && Dot(u2, u2) == 1.0
  {
    UnitRowLength(u0);
    UnitRowLength(u1);
    UnitRowLength(u2);
  }

  /** Rows whose nonzero entries sit in pairwise different columns are orthogonal. */
  lemma SpreadRowsOrthogonal(u0: Vec3, u1: Vec3, u2: Vec3)
    requires OneNonzero(Vec3(u0.x, u1.x, u2.x))
    requires OneNonzero(Vec3(u0.y, u1.y, u2.y))
    requires OneNonzero(Vec3(u0.z, u1.z, u2.z))
    ensures Dot(u0, u1) == 0.0 && Dot(u0, u2) == 0.0 && Dot(u1, u2) == 0.0
  {
    DisjointSupportOrthogonal(u0, u1);
    DisjointSupportOrthogonal(u0, u2);
    DisjointSupportOrthogonal(u1, u2);
  }

  /** Rows with one unit entry each, no two in the same column, are orthonormal. */
  lemma SpreadRowsOrthonormal(u0: Vec3, u1: Vec3, u2: Vec3)
    requires UnitEntries(u0) && UnitEntries(u1) && UnitEntries(u2)
    requires OneNonzero(u0) && OneNonzero(u1) && OneNonzero(u2)
    requires OneNonzero(Vec3(u0.x, u1.x, u2.x))
    requires OneNonzero(Vec3(u0.y, u1.y, u2.y))
    requires OneNonzero(Vec3(u0.z, u1.z, u2.z))
    ensures Orthonormal(u0, u1, u2)
  {
    UnitRowsLength(u0, u1, u2);
    SpreadRowsOrthogonal(u0, u1, u2);
  }

  /** Every signed permutation matrix is orthogonal: its transpose is its inverse. */
  lemma SignedPermutationIsOrthogonal(m: Mat3)
    requires IsSignedPermutation(m)
    ensures IsOrthogonal(m)
  {
    SpreadRowsOrthonormal(m.r0, m.r1, m.r2);
    OrthonormalRows(m);
    SpreadRowsOrthonormal(Col0(m), Col1(m), Col2(m));
    OrthonormalColumns(m);
  }

  // ------------------------------------------------------ frame constants

  /** Drone body axes to world axes (`droneToMundoR`). */
  function DroneToWorld(): Mat3 {
    Mat3(Vec3(0.0, 1.0, 0.0), Vec3(1.0, 0.0, 0.0), Vec3(0.0, 0.0, -1.0))
  }

  /** World axes to drone body axes (`mundoToDroneR`). */
  function WorldToDrone(): Mat3 {
    Transpose(DroneToWorld())
  }

  /** Camera axes to drone body axes (`cameraToDroneR`). */
  function CameraToDrone(): Mat3 {
    Mat3(Vec3(0.0, 0.0, 1.0), Vec3(1.0, 0.0, 0.0), Vec3(0.0, 1.0, 0.0))
  }

  /** Drone body axes to camera axes (`droneToCameraR`). */
  function DroneToCamera(): Mat3 {
    Transpose(CameraToDrone())
  }

  /** Camera axes to world axes (`cameraToMundoR`). */
  function CameraToWorld(): Mat3 {
    Mat3(Vec3(1.0, 0.0, 0.0), Vec3(0.0, 0.0, 1.0), Vec3(0.0, -1.0, 0.0))
  }

  /** World axes to camera axes (`mundoToCameraR`). */
  function WorldToCamera(): Mat3 {
    Transpose(CameraToWorld())
  }

  /** OpenCV camera axes to OpenGL camera axes (`cameraToOpenglR`): y and z flip. */
  function CameraToOpenGL(): Mat3 {
    Mat3(Vec3(1.0, 0.0, 0.0), Vec3(0.0, -1.0, 0.0), Vec3(0.0, 0.0, -1.0))
  }

  lemma DroneToWorldSignedPermutation()
    ensures IsSignedPermutation(DroneToWorld())
  {
  }

  lemma DroneToWorldOrthogonal()
    ensures IsOrthogonal(DroneToWorld())
  {
    DroneToWorldSignedPermutation();
    SignedPermutationIsOrthogonal(DroneToWorld());
  }

  lemma WorldToDroneSignedPermutation()
    ensures IsSignedPermutation(WorldToDrone())
  {
  }

  lemma WorldToDroneOrthogonal()
    ensures IsOrthogonal(WorldToDrone())
  {
    WorldToDroneSignedPermutation();
    SignedPermutationIsOrthogonal(WorldToDrone());
  }

  lemma CameraToDroneSignedPermutation()
    ensures IsSignedPermutation(CameraToDrone())
  {
  }

  lemma CameraToDroneOrthogonal()
    ensures IsOrthogonal(CameraToDrone())
  {
    CameraToDroneSignedPermutation();
    SignedPermutationIsOrthogonal(CameraToDrone());
  }

  lemma DroneToCameraSignedPermutation()
    ensures IsSignedPermutation(DroneToCamera())
  {
  }

  lemma DroneToCameraOrthogonal()
    ensures IsOrthogonal(DroneToCamera())
  {
    DroneToCameraSignedPermutation();
    SignedPermutationIsOrthogonal(DroneToCamera());
  }

  lemma CameraToWorldSignedPermutation()
    ensures IsSignedPermutation(CameraToWorld())
  {
  }

  lemma CameraToWorldOrthogonal()
    ensures IsOrthogonal(CameraToWorld())
  {
    CameraToWorldSignedPermutation();
    SignedPermutationIsOrthogonal(CameraToWorld());
  }

  lemma WorldToCameraSignedPermutation()
    ensures IsSignedPermutation(WorldToCamera())
  {
  }

  lemma WorldToCameraOrthogonal()
    ensures IsOrthogonal(WorldToCamera())
  {
    WorldToCameraSignedPermutation();
    SignedPermutationIsOrthogonal(WorldToCamera());
  }

  lemma CameraToOpenGLSignedPermutation()
    ensures IsSignedPermutation(CameraToOpenGL())
  {
  }

  lemma CameraToOpenGLOrthogonal()
    ensures IsOrthogonal(CameraToOpenGL())
  {
    CameraToOpenGLSignedPermutation();
    SignedPermutationIsOrthogonal(CameraToOpenGL());
  }

  /** Each fixed change of frame is a signed permutation, and each one's
      transpose, the constant for the opposite direction, is its inverse. */
  lemma FrameConstantsAreSignedPermutations()
    ensures IsSignedPermutation(DroneToWorld()) && IsOrthogonal(DroneToWorld())
    ensures IsSignedPermutation(CameraToDrone()) && IsOrthogonal(CameraToDrone())
    ensures IsSignedPermutation(CameraToWorld()) && IsOrthogonal(CameraToWorld())
    ensures IsSignedPermutation(CameraToOpenGL()) && IsOrthogonal(CameraToOpenGL())
    ensures Transpose(CameraToOpenGL()) == CameraToOpenGL()
  {
    DroneToWorldSignedPermutation();
    CameraToDroneSignedPermutation();
    CameraToWorldSignedPermutation();
    CameraToOpenGLSignedPermutation();
    DroneToWorldOrthogonal();
    CameraToDroneOrthogonal();
    CameraToWorldOrthogonal();
    CameraToOpenGLOrthogonal();
  }

  /** The constants for opposite directions undo each other. */
  lemma OppositeFrameConstantsInvert()
    ensures Mul(WorldToDrone(), DroneToWorld()) == Identity()
    ensures Mul(DroneToCamera(), CameraToDrone()) == Identity()
    ensures Mul(WorldToCamera(), CameraToWorld()) == Identity()
  {
    DroneToWorldOrthogonal();
    CameraToDroneOrthogonal();
    CameraToWorldOrthogonal();
  }

  // -------------------------------------------------------- the frame chain

  /** The world-to-camera rotation of a frame (`droneToCameraR @ R_drone_T @ mundoToDroneR`). */
  function CameraRotation(rDrone: Mat3): Mat3 {
    Mul(Mul(DroneToCamera(), Transpose(rDrone)), WorldToDrone())
  }

  /** The camera-to-world rotation handed to the ray builder
      (`droneToMundoR @ R_drone @ cameraToDroneR`). */
  function RayRotation(rDrone: Mat3): Mat3 {
    Mul(Mul(DroneToWorld(), rDrone), CameraToDrone())
  }

  /** The fixed camera-to-world constant is the camera-to-drone step followed
      by the drone-to-world step, and likewise for the inverse direction. */
  lemma CameraToWorldIsComposite()
    ensures CameraToWorld() == Mul(DroneToWorld(), CameraToDrone())
    ensures WorldToCamera() == Mul(DroneToCamera(), WorldToDrone())
  {
    CameraToWorldComposite();
    WorldToCameraComposite();
  }

  lemma CameraToWorldComposite()
    ensures CameraToWorld() == Mul(DroneToWorld(), CameraToDrone())
  {
  }

  lemma WorldToCameraComposite()
    ensures WorldToCamera() == Mul(DroneToCamera(), WorldToDrone())
  {
  }

  /** With a level drone (identity telemetry rotation) the ray rotation is the
      fixed camera-to-world constant. */
  lemma LevelDroneRayRotation()
    ensures RayRotation(Identity()) == CameraToWorld()
  {
    MulIdentity(DroneToWorld());
    CameraToWorldComposite();
  }

  /** For every telemetry rotation, with no assumption on it, the rotation
      used to cast click rays is exactly the transpose of the rotation used
      to project world points into the camera. */
  lemma RayRotationIsTransposeOfCameraRotation(rDrone: Mat3)
    ensures RayRotation(rDrone) == Transpose(CameraRotation(rDrone))
  {
    var a := DroneToCamera();
    var b := Transpose(rDrone);
    var c := WorldToDrone();
    calc {
      Transpose(CameraRotation(rDrone));
      Transpose(Mul(Mul(a, b), c));
      { TransposeOfMul(Mul(a, b), c); }
      Mul(Transpose(c), Transpose(Mul(a, b)));
      { TransposeOfMul(a, b); }
      Mul(Transpose(c), Mul(Transpose(b), Transpose(a)));
      { TransposeTwice(DroneToWorld()); TransposeTwice(rDrone); TransposeTwice(CameraToDrone()); }
      Mul(DroneToWorld(), Mul(rDrone, CameraToDrone()));
      { MulAssoc(DroneToWorld(), rDrone, CameraToDrone()); }
      RayRotation(rDrone);
    }
  }

  /** When the telemetry rotation is orthogonal, so is the camera rotation,
      and the ray rotation undoes it on both sides. */
  lemma CameraRotationOrthogonal(rDrone: Mat3)
    requires IsOrthogonal(rDrone)
    ensures IsOrthogonal(CameraRotation(rDrone))
    ensures Mul(RayRotation(rDrone), CameraRotation(rDrone)) == Identity()
    ensures Mul(CameraRotation(rDrone), RayRotation(rDrone)) == Identity()
  {
    CameraRotationIsOrthogonal(rDrone);
    RayRotationIsTransposeOfCameraRotation(rDrone);
    TransposeInverts(CameraRotation(rDrone), RayRotation(rDrone));
  }

  lemma CameraRotationIsOrthogonal(rDrone: Mat3)
    requires IsOrthogonal(rDrone)
    ensures IsOrthogonal(CameraRotation(rDrone))
  {
    OrthogonalTranspose(rDrone);
    DroneToCameraOrthogonal();
    WorldToDroneOrthogonal();
    OrthogonalTriple(DroneToCamera(), Transpose(rDrone), WorldToDrone());
  }
}
