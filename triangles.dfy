/**
 * Index vocabulary shared by the triangulators: triangles as index triples,
 * the fan over a polygon's vertices, flattening triples into an index
 * buffer, and moving indices past the vertices already in a mesh.
 */
module Triangles {
  /** A triangle as three vertex indices. */
  datatype Triple = Triple(i0: nat, i1: nat, i2: nat)

  /** The fan over the first n vertices: `[0, i, i + 1]` for i from 1 to n - 2. */
  function Fan(n: nat): seq<Triple> {
    if n < 3 then [] else Fan(n - 1) + [Triple(0, n - 2, n - 1)]
  }

  /** The fan has n - 2 triangles, the i-th of them `[0, i + 1, i + 2]`, and none for fewer than three vertices. */
  lemma {:induction false} FanShape(n: nat)
    ensures n < 3 ==> Fan(n) == []
    ensures n >= 3 ==> |Fan(n)| == n - 2
    ensures forall i :: 0 <= i < |Fan(n)| ==> Fan(n)[i] == Triple(0, i + 1, i + 2)
  {
    if n >= 3 {
      FanShape(n - 1);
    }
  }

  /** The indices of the triangles, three by three. */
  function Flatten(ts: seq<Triple>): (r: seq<nat>)
    ensures |r| == 3 * |ts|
  {
    if ts == [] then []
    else
      var t := ts[|ts| - 1];
      Flatten(ts[..|ts| - 1]) + [t.i0, t.i1, t.i2]
  }

  /** Indices below n stay below n once flattened. */
  lemma {:induction false} FlattenBelow(ts: seq<Triple>, n: nat)
    requires forall i :: 0 <= i < |ts| ==> ts[i].i0 < n && ts[i].i1 < n && ts[i].i2 < n
    ensures forall i :: 0 <= i < |Flatten(ts)| ==> Flatten(ts)[i] < n
  {
    if ts != [] {
      var front := ts[..|ts| - 1];
      assert forall i :: 0 <= i < |front| ==> front[i] == ts[i];
      FlattenBelow(front, n);
    }
  }

  /** Every index of the fan over n vertices is a vertex. */
  lemma FanBelow(n: nat)
    ensures forall i :: 0 <= i < |Flatten(Fan(n))| ==> Flatten(Fan(n))[i] < n
  {
    FanShape(n);
    FlattenBelow(Fan(n), n);
  }

  /** Indices moved past the vertices already in the mesh. */
  function Shift(xs: seq<nat>, offset: nat): (r: seq<nat>)
    ensures |r| == |xs| && forall i :: 0 <= i < |xs| ==> r[i] == xs[i] + offset
  {
    seq(|xs|, i requires 0 <= i < |xs| => xs[i] + offset)
  }

  /** Flattening one more triangle appends its three corners. */
  lemma FlattenSnoc(ts: seq<Triple>, t: Triple)
    ensures Flatten(ts + [t]) == Flatten(ts) + [t.i0, t.i1, t.i2]
  {
    assert (ts + [t])[..|ts|] == ts;
  }

  /** The corners of triangle k sit at indices 3k, 3k + 1 and 3k + 2. */
  predicate CornersAt(flat: seq<nat>, k: nat, t: Triple)
    requires 3 * k + 3 <= |flat|
  {
    flat[3 * k] == t.i0 && flat[3 * k + 1] == t.i1 && flat[3 * k + 2] == t.i2
  }

  /** Triangle k of a flattened list sits at indices 3k to 3k + 2. */
  lemma {:induction false} FlattenAt(ts: seq<Triple>)
    ensures forall k :: 0 <= k < |ts| ==> CornersAt(Flatten(ts), k, ts[k])
  {
    if ts != [] {
      var front := ts[..|ts| - 1];
      FlattenAt(front);
      var flat := Flatten(ts);
      assert flat == Flatten(front) + [ts[|ts| - 1].i0, ts[|ts| - 1].i1, ts[|ts| - 1].i2];
      forall k | 0 <= k < |ts|
        ensures CornersAt(flat, k, ts[k])
      {
        if k < |front| {
          assert CornersAt(Flatten(front), k, front[k]);
          assert front[k] == ts[k];
        }
      }
    }
  }

  /** Triangle k of an index buffer is the fan triangle `[0, k + 1, k + 2]`. */
  predicate FanCornersAt(flat: seq<nat>, k: nat)
    requires 3 * k + 3 <= |flat|
  {
    CornersAt(flat, k, Triple(0, k + 1, k + 2))
  }

  /** Triangle k of the fan over n vertices is `[0, k + 1, k + 2]` in the index buffer. */
  lemma FanTriangleAt(n: nat)
    ensures n >= 3 ==> |Flatten(Fan(n))| == 3 * (n - 2)
    ensures forall k :: 0 <= k < n - 2 ==> FanCornersAt(Flatten(Fan(n)), k)
  {
    var fan := Fan(n);
    FanShape(n);
    FlattenAt(fan);
    forall k | 0 <= k < n - 2
      ensures FanCornersAt(Flatten(fan), k)
    {
      assert fan[k] == Triple(0, k + 1, k + 2);
      assert CornersAt(Flatten(fan), k, fan[k]);
    }
  }

  /** Flattening distributes over concatenation. */
  lemma {:induction false} FlattenConcat(ts: seq<Triple>, us: seq<Triple>)
    ensures Flatten(ts + us) == Flatten(ts) + Flatten(us)
    decreases |us|
  {
    if us == [] {
      assert ts + us == ts;
    } else {
      var front, last := us[..|us| - 1], us[|us| - 1];
      assert ts + us == (ts + front) + [last];
      FlattenSnoc(ts + front, last);
      FlattenConcat(ts, front);
      assert us == front + [last];
      FlattenSnoc(front, last);
    }
  }
}
