// `TransformComponent` of include/pbrt/ecs/components/transform_component.hpp and
// src/ecs/components/transform_component.cpp: position, rotation and scale of an entity,
// with the world matrix, its inverse and the rotation matrix cached behind dirty flags.
// EPSILON is the parameter `eps`; `normalize()` needs the quaternion's length, which callers
// pass as `len` with `len * len` equal to the squared length.
module TransformComponents {
  import opened Scalar
  import opened Grids
  import Vectors
  import Quaternions
  import MatrixTransforms
  import Matrices

  /** `translate(position) * rotate(rotation) * scale(scale)`, multiplied left to right. */
  function WorldOf(position: Vectors.Vec, rotation: Quaternions.Quat, scale: Vectors.Vec): (m: Grid)
    requires |position| == 3 && |scale| == 3
    ensures IsGrid(m, 4, 4)
  {
    var tr := Product(MatrixTransforms.Translate(position), Quaternions.RotationMatrix(rotation), 4, 4, 4);
    Product(tr, MatrixTransforms.ScaleBy(scale), 4, 4, 4)
  }

  /** `xyz(m.row(r))`: the first three cells of row `r`. */
  function RowXyz(m: Grid, r: nat): (v: Vectors.Vec)
    requires IsGrid(m, 4, 4) && r < 4
    ensures |v| == 3 && v[0] == m[r][0] && v[1] == m[r][1] && v[2] == m[r][2]
  {
    [m[r][0], m[r][1], m[r][2]]
  }

  /** Product cells against a matrix whose last column is `(0, 0, 0, 1)`. */
  lemma LastColumnKept(a: Grid, b: Grid, r: nat)
    requires IsGrid(a, 4, 4) && IsGrid(b, 4, 4) && r < 4
    requires b[0][3] == 0.0 && b[1][3] == 0.0 && b[2][3] == 0.0 && b[3][3] == 1.0
    ensures Product(a, b, 4, 4, 4)[r][3] == a[r][3]
  {
    MatrixTransforms.ProductCell4(a, b, r, 3);
  }

  /** Product cells of a matrix whose bottom row is `(0, 0, 0, 1)`, in that row. */
  lemma BottomRowKept(a: Grid, b: Grid, c: nat)
    requires IsGrid(a, 4, 4) && IsGrid(b, 4, 4) && c < 4
    requires a[3] == [0.0, 0.0, 0.0, 1.0]
    ensures Product(a, b, 4, 4, 4)[3][c] == b[3][c]
  {
    MatrixTransforms.ProductCell4(a, b, 3, c);
  }

  /** The world matrix carries the position in its last column: `extract_translation` gives it back. */
  lemma WorldTranslation(position: Vectors.Vec, rotation: Quaternions.Quat, scale: Vectors.Vec)
    requires |position| == 3 && |scale| == 3
    ensures MatrixTransforms.ExtractTranslation(WorldOf(position, rotation, scale), 4) == position
  {
    var t := MatrixTransforms.Translate(position);
    var rm := Quaternions.RotationMatrix(rotation);
    var s := MatrixTransforms.ScaleBy(scale);
    var tr := Product(t, rm, 4, 4, 4);
    forall r | 0 <= r < 3 ensures WorldOf(position, rotation, scale)[r][3] == position[r] {
      LastColumnKept(tr, s, r);
      LastColumnKept(t, rm, r);
    }
  }

  /** The world matrix is affine: its bottom row is `(0, 0, 0, 1)`. */
  lemma WorldAffine(position: Vectors.Vec, rotation: Quaternions.Quat, scale: Vectors.Vec)
    requires |position| == 3 && |scale| == 3
    ensures MatrixTransforms.IsAffine(WorldOf(position, rotation, scale), 4)
  {
    var t := MatrixTransforms.Translate(position);
    var rm := Quaternions.RotationMatrix(rotation);
    var s := MatrixTransforms.ScaleBy(scale);
    var tr := Product(t, rm, 4, 4, 4);
    assert t[3] == [0.0, 0.0, 0.0, 1.0];
    forall c | 0 <= c < 4 ensures tr[3][c] == rm[3][c] {
      BottomRowKept(t, rm, c);
    }
    assert tr[3] == [0.0, 0.0, 0.0, 1.0];
    forall c | 0 <= c < 4 ensures WorldOf(position, rotation, scale)[3][c] == s[3][c] {
      BottomRowKept(tr, s, c);
    }
  }

  /** Zero position, identity rotation and unit scale give the identity world matrix. */
  lemma DefaultWorldIsIdentity(position: Vectors.Vec, rotation: Quaternions.Quat, scale: Vectors.Vec)
    requires position == [0.0, 0.0, 0.0] && rotation == Quaternions.Identity() && scale == [1.0, 1.0, 1.0]
    ensures WorldOf(position, rotation, scale) == Identity(4)
  {
    TranslateZero(position);
    IdentityRotationMatrix(rotation);
    ScaleOne(scale);
    WorldOfIdentities(position, rotation, scale);
  }

  /** A world matrix whose three factors are identities is the identity. */
  lemma WorldOfIdentities(position: Vectors.Vec, rotation: Quaternions.Quat, scale: Vectors.Vec)
    requires |position| == 3 && |scale| == 3
    requires MatrixTransforms.Translate(position) == Identity(4)
    requires Quaternions.RotationMatrix(rotation) == Identity(4)
    requires MatrixTransforms.ScaleBy(scale) == Identity(4)
    ensures WorldOf(position, rotation, scale) == Identity(4)
  {
    IdentityProductLeft(Identity(4), 4, 4);
  }

  /** `translate` by the zero vector is the identity. */
  lemma TranslateZero(position: Vectors.Vec)
    requires position == [0.0, 0.0, 0.0]
    ensures MatrixTransforms.Translate(position) == Identity(4)
  {
    GridExtensionality(MatrixTransforms.Translate(position), Identity(4), 4, 4);
  }

  /** `scale` by the unit vector is the identity. */
  lemma ScaleOne(scale: Vectors.Vec)
    requires scale == [1.0, 1.0, 1.0]
    ensures MatrixTransforms.ScaleBy(scale) == Identity(4)
  {
    GridExtensionality(MatrixTransforms.ScaleBy(scale), Identity(4), 4, 4);
  }

  /** The identity rotation has right (1, 0, 0), up (0, 1, 0) and forward (0, 0, -1). */
  lemma IdentityDirections(q: Quaternions.Quat)
    requires q == Quaternions.Identity()
    ensures var m := Quaternions.RotationMatrix(q);
      && RowXyz(m, 0) == [1.0, 0.0, 0.0] && RowXyz(m, 1) == [0.0, 1.0, 0.0]
      && Vectors.Negated(RowXyz(m, 2)) == [0.0, 0.0, -1.0]
  {
    IdentityRotationMatrix(q);
    IdentityRows(Identity(4));
  }

  /** The free `rotate` of the identity quaternion is the identity matrix. */
  lemma IdentityRotationMatrix(q: Quaternions.Quat)
    requires q == Quaternions.Identity()
    ensures Quaternions.RotationMatrix(q) == Identity(4)
  {
    Quaternions.RotationMatrixIsToMatrix(q);
    Quaternions.ToMatrixIdentity();
  }

  /** The first three rows of the identity, cut to three cells, and the last one negated. */
  lemma IdentityRows(m: Grid)
    requires m == Identity(4)
    ensures RowXyz(m, 0) == [1.0, 0.0, 0.0] && RowXyz(m, 1) == [0.0, 1.0, 0.0]
    ensures Vectors.Negated(RowXyz(m, 2)) == [0.0, 0.0, -1.0]
  {
    assert m[0][0] == 1.0 && m[0][1] == 0.0 && m[0][2] == 0.0;
    assert m[1][0] == 0.0 && m[1][1] == 1.0 && m[1][2] == 0.0;
    assert m[2][0] == 0.0 && m[2][1] == 0.0 && m[2][2] == 1.0;
    var f := Vectors.Negated(RowXyz(m, 2));
    assert |f| == 3 && f[0] == 0.0 && f[1] == 0.0 && f[2] == -1.0;
  }

  /** The identity quaternion has length 1, so normalising it changes nothing. */
  lemma IdentityIsNormal(q: Quaternions.Quat, eps: real)
    requires q == Quaternions.Identity() && 0.0 < eps
    ensures IsSqrt(Quaternions.LengthSquared(q), 1.0)
    ensures Quaternions.Normalized(q, 1.0, eps) == q
  {
    assert Quaternions.Scale(q, 1.0 / 1.0) == q;
  }

  class TransformComponent {
    /** EPSILON, for `normalize()` and `inverse()`. */
    const eps: real
    var position: Vectors.Vec
    var rotation: Quaternions.Quat
    var scale: Vectors.Vec
    var worldDirty: bool
    var world: Grid
    var inverseWorld: Grid
    var rotationDirty: bool
    var rotationMatrix: Grid

    /**
     * The cache invariant: a clean world flag means the world matrix is `T R S` of the
     * current fields and the inverse is its inverse; a clean rotation flag means the
     * rotation matrix belongs to the current rotation.
     */
    predicate Valid()
      reads this
    {
      && 0.0 < eps && |position| == 3 && |scale| == 3
      && IsGrid(world, 4, 4) && IsGrid(inverseWorld, 4, 4) && IsGrid(rotationMatrix, 4, 4)
      && (!worldDirty ==> world == WorldOf(position, rotation, scale)
                          && inverseWorld == Matrices.InverseOf(world, 4, eps))
      && (!rotationDirty ==> rotationMatrix == Quaternions.RotationMatrix(rotation))
    }

    /**
     * `TransformComponent()`: zero position, the identity rotation and unit scale, with both
     * caches computed. Normalising the identity changes nothing (`IdentityIsNormal`), and the
     * two updates then store the identity world matrix with its inverse and the identity
     * rotation matrix (`DefaultWorldIsIdentity`, `IdentityRotationMatrix`); those values are
     * assigned here directly.
     */
    constructor Default(eps: real)
      requires 0.0 < eps
      ensures Valid() && this.eps == eps && !worldDirty && !rotationDirty
      ensures position == [0.0, 0.0, 0.0] && rotation == Quaternions.Identity() && scale == [1.0, 1.0, 1.0]
    {
      this.eps := eps;
      position := [0.0, 0.0, 0.0];
      rotation := Quaternions.Identity();
      scale := [1.0, 1.0, 1.0];
      worldDirty, rotationDirty := false, false;
      world, rotationMatrix := Identity(4), Identity(4);
      inverseWorld := Matrices.InverseOf(Identity(4), 4, eps);
      new;
      DefaultWorldIsIdentity(position, rotation, scale);
      IdentityRotationMatrix(rotation);
    }

    /**
     * `TransformComponent(position, rotation, scale)`: the position and scale stored, the
     * rotation stored normalised (`len` its length), and both caches computed.
     */
    constructor (position: Vectors.Vec, rotation: Quaternions.Quat, scale: Vectors.Vec, len: real, eps: real)
      requires |position| == 3 && |scale| == 3 && 0.0 < eps
      requires IsSqrt(Quaternions.LengthSquared(rotation), len)
      ensures Valid() && this.eps == eps && !worldDirty && !rotationDirty
      ensures this.position == position && this.scale == scale
      ensures this.rotation == Quaternions.Normalized(rotation, len, eps)
      ensures eps < len ==> Quaternions.LengthSquared(this.rotation) == 1.0
    {
      this.eps := eps;
      this.position := position;
      this.rotation := Quaternions.Normalized(rotation, len, eps);
      this.scale := scale;
      worldDirty, rotationDirty := true, true;
      world, inverseWorld, rotationMatrix := Identity(4), Identity(4), Identity(4);
      new;
      if eps < len {
        Quaternions.NormalizedIsUnit(rotation, len, eps);
      }
      UpdateRotationMatrix();
      UpdateWorldMatrix();
    }

    /** `set_position(position)`: stored, and only the world matrix marked dirty. */
    method SetPosition(p: Vectors.Vec)
      requires Valid() && |p| == 3
      modifies this
      ensures Valid() && position == p && worldDirty
      ensures rotation == old(rotation) && scale == old(scale)
      ensures rotationDirty == old(rotationDirty) && rotationMatrix == old(rotationMatrix)
    {
      position := p;
      MarkWorldMatrixDirty();
    }

    /** `set_rotation(rotation)`: stored normalised, and both matrices marked dirty. */
    method SetRotation(q: Quaternions.Quat, len: real)
      requires Valid() && IsSqrt(Quaternions.LengthSquared(q), len)
      modifies this
      ensures Valid() && rotation == Quaternions.Normalized(q, len, eps) && worldDirty && rotationDirty
      ensures eps < len ==> Quaternions.LengthSquared(rotation) == 1.0
      ensures position == old(position) && scale == old(scale)
    {
      rotation := Quaternions.Normalized(q, len, eps);
      if eps < len {
        Quaternions.NormalizedIsUnit(q, len, eps);
      }
      MarkWorldMatrixDirty();
      MarkRotationMatrixDirty();
    }

    /** `set_scale(scale)`: stored, and only the world matrix marked dirty. */
    method SetScale(s: Vectors.Vec)
      requires Valid() && |s| == 3
      modifies this
      ensures Valid() && scale == s && worldDirty
      ensures rotation == old(rotation) && position == old(position)
      ensures rotationDirty == old(rotationDirty) && rotationMatrix == old(rotationMatrix)
    {
      scale := s;
      MarkWorldMatrixDirty();
    }

    /** `get_forward()`: row 2 of the rotation matrix, negated, refreshing that matrix first. */
    method GetForward() returns (v: Vectors.Vec)
      requires Valid()
      modifies this
      ensures Valid() && !rotationDirty
      ensures v == Vectors.Negated(RowXyz(Quaternions.RotationMatrix(rotation), 2))
      ensures LeavesPoseAlone() && worldDirty == old(worldDirty)
      ensures old(!rotationDirty) ==> rotationMatrix == old(rotationMatrix)
    {
      if rotationDirty {
        UpdateRotationMatrix();
      }
      v := Vectors.Negated(RowXyz(rotationMatrix, 2));
    }

    /** `get_right()`: row 0 of the rotation matrix, refreshing that matrix first. */
    method GetRight() returns (v: Vectors.Vec)
      requires Valid()
      modifies this
      ensures Valid() && !rotationDirty
      ensures v == RowXyz(Quaternions.RotationMatrix(rotation), 0)
      ensures LeavesPoseAlone() && worldDirty == old(worldDirty)
      ensures old(!rotationDirty) ==> rotationMatrix == old(rotationMatrix)
    {
      if rotationDirty {
        UpdateRotationMatrix();
      }
      v := RowXyz(rotationMatrix, 0);
    }

    /** `get_up()`: row 1 of the rotation matrix, refreshing that matrix first. */
    method GetUp() returns (v: Vectors.Vec)
      requires Valid()
      modifies this
      ensures Valid() && !rotationDirty
      ensures v == RowXyz(Quaternions.RotationMatrix(rotation), 1)
      ensures LeavesPoseAlone() && worldDirty == old(worldDirty)
      ensures old(!rotationDirty) ==> rotationMatrix == old(rotationMatrix)
    {
      if rotationDirty {
        UpdateRotationMatrix();
      }
      v := RowXyz(rotationMatrix, 1);
    }

    /** Position, rotation and scale as they were before the call. */
    twostate predicate LeavesPoseAlone()
      reads this
    {
      position == old(position) && rotation == old(rotation) && scale == old(scale)
    }

    /** `get_position()`. */
    method GetPosition() returns (p: Vectors.Vec)
      ensures p == position
    {
      p := position;
    }

    /** `get_rotation()`. */
    method GetRotation() returns (q: Quaternions.Quat)
      ensures q == rotation
    {
      q := rotation;
    }

    /** `get_scale()`. */
    method GetScale() returns (s: Vectors.Vec)
      ensures s == scale
    {
      s := scale;
    }

    /**
     * `get_world_matrix()`: `T R S` of the current fields, recomputed only when dirty; a clean
     * cache is handed back untouched.
     */
    method GetWorldMatrix() returns (m: Grid)
      requires Valid()
      modifies this
      ensures Valid() && !worldDirty && m == world
      ensures m == WorldOf(position, rotation, scale)
      ensures LeavesPoseAlone() && rotationDirty == old(rotationDirty) && rotationMatrix == old(rotationMatrix)
      ensures old(!worldDirty) ==> world == old(world)
    {
      if worldDirty {
        UpdateWorldMatrix();
      }
      m := world;
    }

    /** `get_inverse_world_matrix()`: the inverse of the world matrix, refreshed when dirty. */
    method GetInverseWorldMatrix() returns (m: Grid)
      requires Valid()
      modifies this
      ensures Valid() && !worldDirty && m == inverseWorld
      ensures m == Matrices.InverseOf(WorldOf(position, rotation, scale), 4, eps)
      ensures LeavesPoseAlone() && rotationDirty == old(rotationDirty) && rotationMatrix == old(rotationMatrix)
      ensures old(!worldDirty) ==> inverseWorld == old(inverseWorld)
    {
      if worldDirty {
        UpdateWorldMatrix();
      }
      m := inverseWorld;
    }

    /** `update_world_matrix()`: when dirty, `T R S` and its inverse recomputed and the flag cleared. */
    method UpdateWorldMatrix()
      requires 0.0 < eps && |position| == 3 && |scale| == 3
      requires !worldDirty ==> world == WorldOf(position, rotation, scale)
                                && inverseWorld == Matrices.InverseOf(world, 4, eps)
      modifies this
      ensures LeavesPoseAlone() && rotationDirty == old(rotationDirty) && rotationMatrix == old(rotationMatrix)
      ensures !worldDirty && world == WorldOf(position, rotation, scale)
      ensures inverseWorld == Matrices.InverseOf(world, 4, eps)
      ensures old(!worldDirty) ==> world == old(world) && inverseWorld == old(inverseWorld)
    {
      if !worldDirty {
        return;
      }
      var translation := MatrixTransforms.Translate(position);
      var rotationM := Quaternions.RotationMatrix(rotation);
      var scaleM := MatrixTransforms.ScaleBy(scale);
      world := Product(Product(translation, rotationM, 4, 4, 4), scaleM, 4, 4, 4);
      inverseWorld := Matrices.InverseOf(world, 4, eps);
      worldDirty := false;
    }

    /** `update_rotation_matrix()`: when dirty, the rotation matrix recomputed and the flag cleared. */
    method UpdateRotationMatrix()
      requires !rotationDirty ==> rotationMatrix == Quaternions.RotationMatrix(rotation)
      modifies this
      ensures !rotationDirty && rotationMatrix == Quaternions.RotationMatrix(rotation)
      ensures old(!rotationDirty) ==> rotationMatrix == old(rotationMatrix)
      ensures LeavesPoseAlone() && worldDirty == old(worldDirty)
      ensures world == old(world) && inverseWorld == old(inverseWorld)
    {
      if !rotationDirty {
        return;
      }
      rotationMatrix := Quaternions.RotationMatrix(rotation);
      rotationDirty := false;
    }

    /** `mark_world_matrix_dirty()`. */
    method MarkWorldMatrixDirty()
      modifies this
      ensures worldDirty && LeavesPoseAlone() && rotationDirty == old(rotationDirty)
      ensures world == old(world) && inverseWorld == old(inverseWorld) && rotationMatrix == old(rotationMatrix)
    {
      worldDirty := true;
    }

    /** `mark_rotation_matrix_dirty()`. */
    method MarkRotationMatrixDirty()
      modifies this
      ensures rotationDirty && LeavesPoseAlone() && worldDirty == old(worldDirty)
      ensures world == old(world) && inverseWorld == old(inverseWorld) && rotationMatrix == old(rotationMatrix)
    {
      rotationDirty := true;
    }
  }
}
