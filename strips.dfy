/** The index-buffer part of `translateFaces`: every face of a mesh becomes
    one triangle strip. A face is given here as the vertex-buffer positions its
    corners were resolved to (the vertex sharing that finds them reads Blender
    data and is not part of this model). The corners pass through a four-slot
    scratch list that is shared by all faces and never cleared. */
module Strips {
  import opened Bytes

  /** The two lists of an `M3GTriangleStripArray` that `translateFaces` fills. */
  datatype TriangleStrips = TriangleStrips(stripLengths: seq<nat>, indices: seq<nat>)

  /** The state after some faces: both lists and the scratch slots. */
  datatype Scan = Scan(stripLengths: seq<nat>, indices: seq<nat>, slots: seq<nat>)

  /** The indices a face with n corners appends, read from the scratch slots:
      a quad as slots 1, 2, 0, 3 and anything else as slots 0, 1, 2. */
  function StripOf(slots: seq<nat>, n: nat): seq<nat>
    requires |slots| == 4
  {
    if n > 3 then [slots[1], slots[2], slots[0], slots[3]] else [slots[0], slots[1], slots[2]]
  }

  /** The faces processed one after the other, from the end. A face with more
      than four corners writes past the four slots (an IndexError): None. */
  function ScanFaces(faces: seq<seq<nat>>): (r: Option<Scan>)
    ensures r.Some? ==> |r.value.slots| == 4
  {
    if faces == [] then Some(Scan([], [], [0, 0, 0, 0]))
    else
      match ScanFaces(faces[..|faces| - 1])
      case None => None
      case Some(sc) =>
        var f := faces[|faces| - 1];
        if |f| > 4 then None
        else
          var slots := f + sc.slots[|f|..];
          Some(Scan(sc.stripLengths + [|f|], sc.indices + StripOf(slots, |f|), slots))
  }

  /** The strip of one triangle or quad, straight from its corners. */
  function FaceOrder(f: seq<nat>): (r: seq<nat>)
    requires 3 <= |f| <= 4
    ensures |r| == |f|
  {
    if |f| == 4 then [f[1], f[2], f[0], f[3]] else [f[0], f[1], f[2]]
  }

  ghost predicate TrianglesAndQuads(faces: seq<seq<nat>>)
  {
    forall k :: 0 <= k < |faces| ==> 3 <= |faces[k]| <= 4
  }

  /** The strips of triangles and quads laid end to end. */
  function FaceOrders(faces: seq<seq<nat>>): seq<nat>
    requires TrianglesAndQuads(faces)
  {
    if faces == [] then [] else FaceOrders(faces[..|faces| - 1]) + FaceOrder(faces[|faces| - 1])
  }

  function Sum(l: seq<nat>): nat
  {
    if l == [] then 0 else Sum(l[..|l| - 1]) + l[|l| - 1]
  }

  /** The number of indices each face appends: four for a quad, three otherwise. */
  function IndexCount(faces: seq<seq<nat>>): nat
  {
    if faces == [] then 0
    else IndexCount(faces[..|faces| - 1]) + (if |faces[|faces| - 1]| > 3 then 4 else 3)
  }

  lemma {:induction false} PrefixFaces(faces: seq<seq<nat>>)
    requires faces != []
    ensures forall k :: 0 <= k < |faces| - 1 ==> faces[..|faces| - 1][k] == faces[k]
  {
  }

  /** The faces are translated exactly when none has more than four corners. */
  lemma {:induction false} ScanDefined(faces: seq<seq<nat>>)
    ensures ScanFaces(faces).Some? <==> forall k :: 0 <= k < |faces| ==> |faces[k]| <= 4
  {
    if faces != [] {
      var p := faces[..|faces| - 1];
      ScanDefined(p);
      PrefixFaces(faces);
      if forall k :: 0 <= k < |p| ==> |p[k]| <= 4 {
        assert forall k :: 0 <= k < |faces| - 1 ==> |faces[k]| <= 4;
      } else {
        var k :| 0 <= k < |p| && |p[k]| > 4;
        assert |faces[k]| > 4;
      }
    }
  }

  /** One strip length per face, equal to the face's number of corners, and
      three indices per face, four for a quad. */
  lemma {:induction false} ScanLengths(faces: seq<seq<nat>>)
    requires ScanFaces(faces).Some?
    ensures var sc := ScanFaces(faces).value;
      && |sc.stripLengths| == |faces|
      && (forall k :: 0 <= k < |faces| ==> sc.stripLengths[k] == |faces[k]|)
      && |sc.indices| == IndexCount(faces)
  {
    if faces != [] {
      var p := faces[..|faces| - 1];
      ScanLengths(p);
      PrefixFaces(faces);
    }
  }

  /** For triangles and quads the scratch slots hold only the face's own
      corners: the indices are each face's strip in turn. */
  lemma {:induction false} ScanOrders(faces: seq<seq<nat>>)
    requires TrianglesAndQuads(faces)
    ensures ScanFaces(faces).Some?
    ensures ScanFaces(faces).value.indices == FaceOrders(faces)
  {
    if faces != [] {
      var p := faces[..|faces| - 1];
      PrefixFaces(faces);
      ScanOrders(p);
      var f := faces[|faces| - 1];
      var slots := f + ScanFaces(p).value.slots[|f|..];
      assert StripOf(slots, |f|) == FaceOrder(f);
    }
  }

  /** The strip lengths add up to the number of indices exactly when every
      face has three or four corners. */
  lemma {:induction false} StripLengthsCoverIndices(faces: seq<seq<nat>>)
    requires ScanFaces(faces).Some?
    ensures var sc := ScanFaces(faces).value;
      Sum(sc.stripLengths) == |sc.indices| <==> TrianglesAndQuads(faces)
  {
    ScanLengthsSum(faces);
    ScanLengths(faces);
    ScanDefined(faces);
    var sc := ScanFaces(faces).value;
    if Sum(sc.stripLengths) == |sc.indices| {
      forall k | 0 <= k < |faces| ensures 3 <= |faces[k]| <= 4 {
        CountsMeetOnlyOnTrianglesAndQuads(faces, k);
      }
    }
  }

  /** Sum of the corner counts, against the index count. */
  lemma {:induction false} ScanLengthsSum(faces: seq<seq<nat>>)
    requires ScanFaces(faces).Some?
    ensures Sum(ScanFaces(faces).value.stripLengths) <= IndexCount(faces)
    ensures TrianglesAndQuads(faces) ==> Sum(ScanFaces(faces).value.stripLengths) == IndexCount(faces)
  {
    if faces != [] {
      var p := faces[..|faces| - 1];
      PrefixFaces(faces);
      ScanLengthsSum(p);
      var sc := ScanFaces(p).value;
      var f := faces[|faces| - 1];
      assert (sc.stripLengths + [|f|])[..|sc.stripLengths|] == sc.stripLengths;
    }
  }

  /** A face with fewer than three corners makes the sum of the strip lengths
      fall short of the number of indices. */
  lemma {:induction false} CountsMeetOnlyOnTrianglesAndQuads(faces: seq<seq<nat>>, k: nat)
    requires ScanFaces(faces).Some? && k < |faces|
    requires Sum(ScanFaces(faces).value.stripLengths) == IndexCount(faces)
    ensures 3 <= |faces[k]| <= 4
  {
    var p := faces[..|faces| - 1];
    PrefixFaces(faces);
    ScanLengthsSum(p);
    var sc := ScanFaces(p).value;
    var f := faces[|faces| - 1];
    assert (sc.stripLengths + [|f|])[..|sc.stripLengths|] == sc.stripLengths;
    if k < |faces| - 1 {
      CountsMeetOnlyOnTrianglesAndQuads(p, k);
    }
  }

  /** One more face of at most four corners. */
  lemma {:induction false} ScanStep(faces: seq<seq<nat>>, k: nat, sc: Scan)
    requires k < |faces| && |faces[k]| <= 4
    requires ScanFaces(faces[..k]) == Some(sc)
    ensures |sc.slots| == 4
    ensures var slots := faces[k] + sc.slots[|faces[k]|..];
      ScanFaces(faces[..k + 1])
        == Some(Scan(sc.stripLengths + [|faces[k]|], sc.indices + StripOf(slots, |faces[k]|), slots))
  {
    assert faces[..k + 1][..k] == faces[..k];
  }

  /** A face with a fifth corner stops the translation. */
  lemma {:induction false} TooManyCorners(faces: seq<seq<nat>>, k: nat)
    requires k < |faces| && |faces[k]| > 4
    ensures ScanFaces(faces).None?
  {
    ScanDefined(faces);
  }

  /** Storing corner j after corners 0 .. j - 1. */
  lemma {:induction false} StoreSlot(face: seq<nat>, slots: seq<nat>, j: nat)
    requires j < |face| && j < |slots|
    ensures (face[..j] + slots[j..])[j := face[j]] == face[..j + 1] + slots[j + 1..]
  {
    var a, b := (face[..j] + slots[j..])[j := face[j]], face[..j + 1] + slots[j + 1..];
    assert |a| == |b|;
    forall i | 0 <= i < |a| ensures a[i] == b[i] {
      if i < j {
        assert a[i] == face[i] == b[i];
      } else if i > j {
        assert a[i] == slots[i] == b[i];
      }
    }
  }

  /** The inner loop of `translateFaces` as far as the strips see it: each
      corner is stored in the scratch slot of its position, and a fifth
      corner has no slot to go to (an IndexError: None). */
  method StoreCorners(slots: seq<nat>, face: seq<nat>) returns (r: Option<seq<nat>>)
    requires |slots| == 4
    ensures r.None? <==> |face| > 4
    ensures r.Some? ==> r.value == face + slots[|face|..]
  {
    var indices := slots;
    for vertexIndex := 0 to |face|
      invariant vertexIndex <= 4 && |indices| == 4
      invariant indices == face[..vertexIndex] + slots[vertexIndex..]
    {
      if vertexIndex >= 4 {
        return None;
      }
      StoreSlot(face, slots, vertexIndex);
      indices := indices[vertexIndex := face[vertexIndex]];
    }
    assert face[..|face|] == face;
    return Some(indices);
  }

  /** The strip part of `translateFaces`: the corners of each face go through
      the scratch slots, then the face's strip length and its strip are
      appended. */
  method TranslateFaceStrips(faces: seq<seq<nat>>) returns (r: Option<TriangleStrips>)
    ensures r.None? <==> ScanFaces(faces).None?
    ensures r.Some? ==> r.value.stripLengths == ScanFaces(faces).value.stripLengths
    ensures r.Some? ==> r.value.indices == ScanFaces(faces).value.indices
  {
    var indices: seq<nat> := [0, 0, 0, 0];
    var stripLengths: seq<nat> := [];
    var strip: seq<nat> := [];
    for k := 0 to |faces|
      invariant ScanFaces(faces[..k]) == Some(Scan(stripLengths, strip, indices))
    {
      var face := faces[k];
      var stored := StoreCorners(indices, face);
      if stored.None? {
        TooManyCorners(faces, k);
        return None;
      }
      ScanStep(faces, k, Scan(stripLengths, strip, indices));
      indices := stored.value;
      stripLengths := stripLengths + [|face|];
      if |face| > 3 {
        strip := strip + [indices[1], indices[2], indices[0], indices[3]];
      } else {
        strip := strip + [indices[0], indices[1], indices[2]];
      }
    }
    assert faces[..|faces|] == faces;
    r := Some(TriangleStrips(stripLengths, strip));
  }
}
