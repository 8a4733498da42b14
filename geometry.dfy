/** Touch-surface geometry: points, relative displacements and the sum of a
    run of displacements. Coordinates are exact reals (the browser's
    `clientX`/`clientY` are JavaScript numbers; rounding is not modelled). */
module Geometry {
  import opened Seqs

  /** A point on the touch surface, or a displacement between two points. */
  datatype Vec = Vec(x: real, y: real)

  const Zero: Vec := Vec(0.0, 0.0)

  function Add(a: Vec, b: Vec): Vec {
    Vec(a.x + b.x, a.y + b.y)
  }

  /** The displacement from `from` to `to`, as a touch-move computes it
      against the anchor: `dx = clientX - anchor.x`, `dy = clientY - anchor.y`.
      Moving `from` by the result lands exactly on `to`, and a zero move
      gives a zero displacement (no dead zone). */
  function Delta(from: Vec, to: Vec): (d: Vec)
    ensures Add(from, d) == to
    ensures d == Zero <==> from == to
  {
    Vec(to.x - from.x, to.y - from.y)
  }

  /** Component-wise sum of a run of displacements. */
  function Sum(ds: seq<Vec>): Vec {
    if ds == [] then Zero else Add(Sum(ds[..|ds| - 1]), ds[|ds| - 1])
  }

  /** The displacements between consecutive raw samples of a drag path: the
      k-th one is measured from sample k to sample k + 1, never from the
      start of the drag. */
  function Deltas(path: seq<Vec>): (ds: seq<Vec>)
    ensures |ds| == if path == [] then 0 else |path| - 1
    ensures forall k :: 0 <= k < |ds| ==> ds[k] == Delta(path[k], path[k + 1])
  {
    if |path| <= 1 then [] else Deltas(path[..|path| - 1]) + [Delta(path[|path| - 2], path[|path| - 1])]
  }

  /** Extending a drag by one sample submits exactly one more displacement,
      measured from the previous last sample. */
  lemma {:induction false} DeltasSnoc(path: seq<Vec>, p: Vec)
    requires path != []
    ensures Deltas(path + [p]) == Deltas(path) + [Delta(Last(path), p)]
  {
  }

  /** Telescoping: the displacements of a drag add up to the displacement
      from its first sample to its last one. */
  lemma {:induction false} SumDeltas(path: seq<Vec>)
    requires path != []
    ensures Sum(Deltas(path)) == Delta(path[0], Last(path))
  {
    if |path| > 1 {
      var init := path[..|path| - 1];
      SumDeltas(init);
      DeltasSnoc(init, Last(path));
      assert init + [Last(path)] == path;
      var ds := Deltas(init) + [Delta(Last(init), Last(path))];
      assert ds[..|ds| - 1] == Deltas(init);
    }
  }

  /** A displacement scaled by the pointer sensitivity, as the throttled
      sender scales `dx` and `dy` before emitting them. With a non-zero
      sensitivity a sample is zero exactly when its displacement is. */
  function Scale(d: Vec, s: real): (r: Vec)
    ensures s != 0.0 ==> (r == Zero <==> d == Zero)
  {
    Vec(d.x * s, d.y * s)
  }

  function ScaleAll(ds: seq<Vec>, s: real): (rs: seq<Vec>)
    ensures |rs| == |ds|
    ensures forall k :: 0 <= k < |ds| ==> rs[k] == Scale(ds[k], s)
  {
    if ds == [] then [] else ScaleAll(ds[..|ds| - 1], s) + [Scale(ds[|ds| - 1], s)]
  }

  /** Scaling one more sample appends its scaled value. */
  lemma ScaleAllSnoc(ds: seq<Vec>, d: Vec, s: real)
    ensures ScaleAll(ds + [d], s) == ScaleAll(ds, s) + [Scale(d, s)]
  {
  }

  /** Scaling distributes over adding two displacements. */
  lemma ScaleAdd(a: Vec, b: Vec, s: real)
    ensures Scale(Add(a, b), s) == Add(Scale(a, s), Scale(b, s))
  {
  }

  /** Scaling each sample and then adding up gives the same total as
      scaling the sum. Applied to the fired samples, this is the pointer's
      travel: sensitivity times the sum of the fired displacements. */
  lemma {:induction false} SumScaleAll(ds: seq<Vec>, s: real)
    ensures Sum(ScaleAll(ds, s)) == Scale(Sum(ds), s)
  {
    if ds != [] {
      var init, d := ds[..|ds| - 1], ds[|ds| - 1];
      SumScaleAll(init, s);
      var rs := ScaleAll(ds, s);
      assert rs == ScaleAll(init, s) + [Scale(d, s)];
      assert rs[..|rs| - 1] == ScaleAll(init, s);
      calc {
        Sum(rs);
        Add(Sum(ScaleAll(init, s)), Scale(d, s));
        Add(Scale(Sum(init), s), Scale(d, s));
        { ScaleAdd(Sum(init), d, s); }
        Scale(Add(Sum(init), d), s);
      }
    }
  }
}
