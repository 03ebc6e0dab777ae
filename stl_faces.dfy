/**
 * `iter_face_index` of the STL exporter: the vertex index lists of a mesh's
 * faces, with each quad split into two triangles when triangulating.
 */
module StlFaces {

  /** The lists one face yields. */
  function FaceIndices(face: seq<nat>, triangulate: bool): (r: seq<seq<nat>>)
  {
    if triangulate && |face| == 4 then [face[..3], face[2..] + [face[0]]]
    else [face]
  }

  /** `iter_face_index`: the lists of every face, in mesh order. */
  function IterFaceIndex(faces: seq<seq<nat>>, triangulate: bool): (r: seq<seq<nat>>)
  {
    if faces == [] then []
    else IterFaceIndex(faces[..|faces| - 1], triangulate) + FaceIndices(faces[|faces| - 1], triangulate)
  }

  /** The number of quads among the faces. */
  function QuadCount(faces: seq<seq<nat>>): nat
  {
    if faces == [] then 0
    else QuadCount(faces[..|faces| - 1]) + (if |faces[|faces| - 1]| == 4 then 1 else 0)
  }

  /** When triangulating, a quad `[a, b, c, d]` yields `[a, b, c]` and then `[c, d, a]`. */
  lemma QuadSplit(a: nat, b: nat, c: nat, d: nat)
    ensures FaceIndices([a, b, c, d], true) == [[a, b, c], [c, d, a]]
  {
    assert [a, b, c, d][..3] == [a, b, c];
    assert [a, b, c, d][2..] + [a] == [c, d, a];
  }

  /**
   * The two triangles of a quad share its diagonal from the first to the
   * third vertex, and together hold all four vertices and nothing else.
   */
  lemma QuadTrianglesCover(face: seq<nat>)
    requires |face| == 4
    ensures var r := FaceIndices(face, true);
      |r| == 2 && |r[0]| == 3 && |r[1]| == 3 &&
      face[0] in r[0] && face[2] in r[0] && face[0] in r[1] && face[2] in r[1] &&
      (forall x :: x in face <==> x in r[0] || x in r[1])
  {
    var r := FaceIndices(face, true);
    assert r[0] == [face[0], face[1], face[2]];
    assert r[1] == [face[2], face[3], face[0]];
  }

  /** Any other face, or any face when not triangulating, is yielded once as it is. */
  lemma OtherFacesWhole(face: seq<nat>, triangulate: bool)
    requires !triangulate || |face| != 4
    ensures FaceIndices(face, triangulate) == [face]
  {
  }

  /** Each face's lists follow those of the faces before it. */
  lemma {:induction false} InMeshOrder(faces: seq<seq<nat>>, more: seq<seq<nat>>, triangulate: bool)
    ensures IterFaceIndex(faces + more, triangulate) ==
            IterFaceIndex(faces, triangulate) + IterFaceIndex(more, triangulate)
    decreases |more|
  {
    if more == [] {
      assert faces + more == faces;
    } else {
      var init := more[..|more| - 1];
      assert (faces + more)[..|faces + more| - 1] == faces + init;
      InMeshOrder(faces, init, triangulate);
    }
  }

  /** When triangulating there is one list per face plus one per quad. */
  lemma {:induction false} TriangulatedCount(faces: seq<seq<nat>>)
    ensures |IterFaceIndex(faces, true)| == |faces| + QuadCount(faces)
  {
    if faces != [] {
      TriangulatedCount(faces[..|faces| - 1]);
    }
  }

  /** Without triangulation the faces come out unchanged. */
  lemma {:induction false} UntriangulatedIsIdentity(faces: seq<seq<nat>>)
    ensures IterFaceIndex(faces, false) == faces
  {
    if faces != [] {
      UntriangulatedIsIdentity(faces[..|faces| - 1]);
      assert faces == faces[..|faces| - 1] + [faces[|faces| - 1]];
    }
  }

  /** Every index in every list yielded belongs to some face of the mesh. */
  lemma {:induction false} IndicesFromFaces(faces: seq<seq<nat>>, triangulate: bool, i: nat, x: nat)
    requires i < |IterFaceIndex(faces, triangulate)| && x in IterFaceIndex(faces, triangulate)[i]
    ensures exists j :: 0 <= j < |faces| && x in faces[j]
  {
    var init := faces[..|faces| - 1];
    var last := faces[|faces| - 1];
    var before := IterFaceIndex(init, triangulate);
    if i < |before| {
      IndicesFromFaces(init, triangulate, i, x);
      var j :| 0 <= j < |init| && x in init[j];
      assert faces[j] == init[j];
    } else {
      var r := FaceIndices(last, triangulate);
      assert x in r[i - |before|];
      if triangulate && |last| == 4 {
        QuadTrianglesCover(last);
      }
      assert x in last;
    }
  }
}
