/** The scanned point cloud as the three.js view module builds it: one
    vertex per index of the coordinate arrays, every coordinate scaled by
    1000, gathered into one point set that is added to the scene. */
module Visualisation {

  datatype Vector3 = Vector3(x: real, y: real, z: real)

  /** The factor every coordinate is multiplied by before display. */
  const ScaleFactor: real := 1000.0

  /** The shared colour and point size of the scanned cloud. */
  const ScannedColor: seq<real> := [0.5, 0.5, 0.5]
  const ScannedSize: real := 1.0

  /** A `THREE.Points` object: the geometry's vertices and its material. */
  datatype PointCloud = PointCloud(vertices: seq<Vector3>, color: seq<real>, size: real)

  /** The vertices built from the first `n` entries of the three arrays,
      in index order. */
  function Scaled(xs: seq<real>, ys: seq<real>, zs: seq<real>, n: nat): (vs: seq<Vector3>)
    requires n <= |xs| && n <= |ys| && n <= |zs|
    ensures |vs| == n
  {
    if n == 0 then []
    else Scaled(xs, ys, zs, n - 1)
         + [Vector3(xs[n - 1] * ScaleFactor, ys[n - 1] * ScaleFactor, zs[n - 1] * ScaleFactor)]
  }

  /** Exactly one vertex per index, in input order, each coordinate the
      input scaled by 1000; so each input is its displayed coordinate divided
      by 1000. */
  lemma {:induction false} ScaledAt(xs: seq<real>, ys: seq<real>, zs: seq<real>, n: nat, i: nat)
    requires n <= |xs| && n <= |ys| && n <= |zs|
    requires i < n
    ensures Scaled(xs, ys, zs, n)[i] == Vector3(xs[i] * 1000.0, ys[i] * 1000.0, zs[i] * 1000.0)
  {
    if i < n - 1 {
      ScaledAt(xs, ys, zs, n - 1, i);
    }
  }

  /** The view's state: the geometry of the last scanned cloud, and the
      point sets added to the scene so far (the scene keeps every one). */
  class View {
    var scannedVertices: seq<Vector3>
    var scene: seq<PointCloud>

    constructor ()
      ensures scannedVertices == [] && scene == []
    {
      scannedVertices := [];
      scene := [];
    }

    /** `printPointCloud`: a fresh geometry gets one scaled vertex per index
        of `xs`, and a point set over it is added to the scene. */
    method PrintPointCloud(xs: seq<real>, ys: seq<real>, zs: seq<real>)
      requires |xs| <= |ys| && |xs| <= |zs|
      modifies this
      ensures scannedVertices == Scaled(xs, ys, zs, |xs|)
      ensures scene == old(scene) + [PointCloud(scannedVertices, ScannedColor, ScannedSize)]
    {
      scannedVertices := [];
      var vertexCount := |xs|;
      for i := 0 to vertexCount
        invariant scannedVertices == Scaled(xs, ys, zs, i)
        invariant scene == old(scene)
      {
        var vertex := Vector3(xs[i] * ScaleFactor, ys[i] * ScaleFactor, zs[i] * ScaleFactor);
        scannedVertices := scannedVertices + [vertex];
      }
      scene := scene + [PointCloud(scannedVertices, ScannedColor, ScannedSize)];
    }
  }
}
