/**
 * The geometry bookkeeping of the Marmalade exporter: the vertex, normal,
 * colour and UV streams of a mesh with the per-object base offsets that let
 * several objects be merged into one mesh, the de-duplicated colour stream,
 * and the triangles and quads gathered per material.
 *
 * Coordinates, colours and UVs are carried as reals; nothing is computed
 * with them.
 */
module MarmaladeGeo {

  datatype Vec3 = Vec3(x: real, y: real, z: real)
  datatype UV = UV(u: real, v: real)
  datatype Color = Color(r: real, g: real, b: real, a: real)

  /** `CGeoIndexList`: the stream positions of one corner of a polygon; -1 for an unused stream. */
  datatype IndexList = IndexList(v: int, vn: int, uv0: int, uv1: int, vc: int)

  /** `CGeoPoly`: the corners of the polygon being built. */
  class GeoPoly {
    var pointsList: seq<IndexList>

    constructor ()
      ensures pointsList == []
    {
      pointsList := [];
    }

    /** `CGeoPoly.AddPoint`: one more corner. */
    method AddPoint(v: int, vn: int, uv0: int, uv1: int, vc: int)
      modifies this
      ensures pointsList == old(pointsList) + [IndexList(v, vn, uv0, uv1, vc)]
    {
      pointsList := pointsList + [IndexList(v, vn, uv0, uv1, vc)];
    }
  }

  /**
   * `CGeoMaterialPolys`: the triangles and quads of one material, and the
   * polygon being built. A finished polygon is kept as its list of corners.
   */
  class GeoMaterialPolys {
    const name: string
    var quadList: seq<seq<IndexList>>
    var triList: seq<seq<IndexList>>
    var currentPoly: GeoPoly?

    /** Every triangle has three corners and every quad four. */
    predicate Valid()
      reads this
    {
      (forall i :: 0 <= i < |triList| ==> |triList[i]| == 3) &&
      (forall i :: 0 <= i < |quadList| ==> |quadList[i]| == 4)
    }

    constructor (name: string)
      ensures this.name == name && quadList == [] && triList == [] && currentPoly == null
      ensures Valid()
    {
      this.name := name;
      quadList := [];
      triList := [];
      currentPoly := null;
    }

    /** `CGeoMaterialPolys.BeginPoly`: start a new, empty polygon. */
    method BeginPoly()
      modifies this
      ensures fresh(currentPoly) && currentPoly.pointsList == []
      ensures quadList == old(quadList) && triList == old(triList)
    {
      currentPoly := new GeoPoly();
    }

    /** `CGeoMaterialPolys.AddPoint`: one more corner of the current polygon. */
    method AddPoint(v: int, vn: int, uv0: int, uv1: int, vc: int)
      requires currentPoly != null
      modifies currentPoly
      ensures currentPoly.pointsList == old(currentPoly.pointsList) + [IndexList(v, vn, uv0, uv1, vc)]
    {
      currentPoly.AddPoint(v, vn, uv0, uv1, vc);
    }

    /**
     * `CGeoMaterialPolys.EndPoly`: a polygon of three corners joins the
     * triangles, one of four the quads, any other is dropped; there is no
     * current polygon afterwards.
     */
    method EndPoly()
      requires currentPoly != null
      modifies this
      ensures triList == old(triList) + (if |old(currentPoly.pointsList)| == 3 then [old(currentPoly.pointsList)] else [])
      ensures quadList == old(quadList) + (if |old(currentPoly.pointsList)| == 4 then [old(currentPoly.pointsList)] else [])
      ensures currentPoly == null
      ensures old(Valid()) ==> Valid()
    {
      var points := currentPoly.pointsList;
      if |points| == 3 {
        triList := triList + [points];
      }
      if |points| == 4 {
        quadList := quadList + [points];
      }
      currentPoly := null;
    }

    /** `CGeoMaterialPolys.ClearPolys`. */
    method ClearPolys()
      modifies this
      ensures quadList == [] && triList == [] && currentPoly == null
      ensures Valid()
    {
      quadList := [];
      triList := [];
      currentPoly := null;
    }
  }

  /** The position an object-local index is stored at: shifted by the object's base, -1 staying -1. */
  function Shift(index: int, base: nat): (r: int)
  {
    if index != -1 then index + base else -1
  }

  /** An entry of `useBonesDict`: the bones of a skin set and the weight lines of its vertices. */
  datatype SkinSet = SkinSet(useBones: seq<nat>, vertWeights: seq<string>)

  /** The whole state of a `CGeoModel` but its name. */
  datatype GeoState = GeoState(
    materials: map<string, GeoMaterialPolys>,
    vList: seq<Vec3>, vnList: seq<Vec3>, vcList: seq<Color>, uv0List: seq<UV>, uv1List: seq<UV>,
    current: GeoMaterialPolys?,
    vbaseIndex: nat, vnbaseIndex: nat, uv0baseIndex: nat, uv1baseIndex: nat,
    armatureObjectName: string, useBonesDict: map<nat, SkinSet>, mapVertexGroupNames: map<nat, string>)

  predicate NoDuplicates<T(==)>(s: seq<T>)
  {
    forall i, j :: 0 <= i < j < |s| ==> s[i] != s[j]
  }

  /** `CGeoModel`: the streams of one mesh of the geo file and its polygons per material. */
  class GeoModel {
    const name: string
    var materialsDict: map<string, GeoMaterialPolys>
    var vList: seq<Vec3>
    var vnList: seq<Vec3>
    var vcList: seq<Color>
    var uv0List: seq<UV>
    var uv1List: seq<UV>
    var currentMaterialPolys: GeoMaterialPolys?
    var vbaseIndex: nat
    var vnbaseIndex: nat
    var uv0baseIndex: nat
    var uv1baseIndex: nat
    var armatureObjectName: string
    var useBonesDict: map<nat, SkinSet>
    var mapVertexGroupNames: map<nat, string>

    function State(): GeoState
      reads this
    {
      GeoState(materialsDict, vList, vnList, vcList, uv0List, uv1List, currentMaterialPolys,
        vbaseIndex, vnbaseIndex, uv0baseIndex, uv1baseIndex, armatureObjectName, useBonesDict, mapVertexGroupNames)
    }

    /**
     * The bases never pass the ends of their streams, the colour stream
     * holds no colour twice, each material is filed under its own name,
     * and every material's triangles and quads have three and four corners.
     */
    predicate Valid()
      reads this, materialsDict.Values, currentMaterialPolys
    {
      vbaseIndex <= |vList| && vnbaseIndex <= |vnList| && uv0baseIndex <= |uv0List| && uv1baseIndex <= |uv1List| &&
      NoDuplicates(vcList) &&
      (forall k :: k in materialsDict ==> materialsDict[k].name == k && materialsDict[k].Valid()) &&
      (currentMaterialPolys != null ==> currentMaterialPolys.Valid())
    }

    constructor (name: string)
      ensures this.name == name
      ensures State() == GeoState(map[], [], [], [], [], [], null, 0, 0, 0, 0, "", map[], map[])
      ensures Valid()
    {
      this.name := name;
      materialsDict := map[];
      vList, vnList, vcList, uv0List, uv1List := [], [], [], [], [];
      currentMaterialPolys := null;
      vbaseIndex, vnbaseIndex, uv0baseIndex, uv1baseIndex := 0, 0, 0, 0;
      armatureObjectName := "";
      useBonesDict := map[];
      mapVertexGroupNames := map[];
    }

    /** `AddVertex`. */
    method AddVertex(vertex: Vec3)
      requires Valid()
      modifies this
      ensures State() == old(State()).(vList := old(vList) + [vertex])
      ensures Valid()
    {
      vList := vList + [vertex];
    }

    /** `AddVertexNormal`. */
    method AddVertexNormal(normal: Vec3)
      requires Valid()
      modifies this
      ensures State() == old(State()).(vnList := old(vnList) + [normal])
      ensures Valid()
    {
      vnList := vnList + [normal];
    }

    /**
     * `AddVertexUV0`: appends the pair and returns its index within the
     * current object, which the object's base turns back into its position.
     */
    method AddVertexUV0(u: real, v: real) returns (index: int)
      requires Valid()
      modifies this
      ensures State() == old(State()).(uv0List := old(uv0List) + [UV(u, v)])
      ensures index == |old(uv0List)| - uv0baseIndex
      ensures 0 <= index && uv0List[Shift(index, uv0baseIndex)] == UV(u, v)
      ensures Valid()
    {
      uv0List := uv0List + [UV(u, v)];
      index := |uv0List| - 1 - uv0baseIndex;
    }

    /** `AddVertexUV1`, as `AddVertexUV0` for the second UV stream. */
    method AddVertexUV1(u: real, v: real) returns (index: int)
      requires Valid()
      modifies this
      ensures State() == old(State()).(uv1List := old(uv1List) + [UV(u, v)])
      ensures index == |old(uv1List)| - uv1baseIndex
      ensures 0 <= index && uv1List[Shift(index, uv1baseIndex)] == UV(u, v)
      ensures Valid()
    {
      uv1List := uv1List + [UV(u, v)];
      index := |uv1List| - 1 - uv1baseIndex;
    }

    /**
     * `AddVertexColor`: the position of the colour in the colour stream,
     * appended only when it is not there yet; the index is global to the
     * merged mesh.
     */
    method AddVertexColor(color: Color) returns (index: nat)
      requires Valid()
      modifies this
      ensures State() == old(State()).(vcList := if color in old(vcList) then old(vcList) else old(vcList) + [color])
      ensures index < |vcList| && vcList[index] == color
      ensures Valid()
    {
      for i := 0 to |vcList|
        invariant forall k :: 0 <= k < i ==> vcList[k] != color
      {
        if vcList[i] == color {
          return i;
        }
      }
      vcList := vcList + [color];
      index := |vcList| - 1;
    }

    /**
     * `CGeoModel.BeginPoly`: the material filed under `materialName`, or a
     * new one of that name, becomes the current material and starts a new
     * polygon.
     */
    method BeginPoly(materialName: string)
      requires Valid()
      modifies this, materialsDict.Values
      ensures currentMaterialPolys != null && currentMaterialPolys.name == materialName
      ensures materialName in old(materialsDict) ==> (
        currentMaterialPolys == old(materialsDict[materialName]) &&
        currentMaterialPolys.triList == old(materialsDict[materialName].triList) &&
        currentMaterialPolys.quadList == old(materialsDict[materialName].quadList))
      ensures materialName !in old(materialsDict) ==> (
        fresh(currentMaterialPolys) && currentMaterialPolys.triList == [] && currentMaterialPolys.quadList == [])
      ensures fresh(currentMaterialPolys.currentPoly) && currentMaterialPolys.currentPoly.pointsList == []
      ensures State() == old(State()).(current := currentMaterialPolys)
      ensures forall m :: m in materialsDict.Values && m != currentMaterialPolys ==> unchanged(m)
      ensures Valid()
    {
      if materialName !in materialsDict {
        currentMaterialPolys := new GeoMaterialPolys(materialName);
      } else {
        currentMaterialPolys := materialsDict[materialName];
      }
      currentMaterialPolys.BeginPoly();
    }

    /**
     * `CGeoModel.AddPoint`: one more corner of the current polygon, each
     * stream index shifted by its object's base unless it is -1, the colour
     * index as it is.
     */
    method AddPoint(v: int, vn: int, uv0: int, uv1: int, vc: int)
      requires currentMaterialPolys != null && currentMaterialPolys.currentPoly != null
      modifies currentMaterialPolys.currentPoly
      ensures currentMaterialPolys.currentPoly.pointsList == old(currentMaterialPolys.currentPoly.pointsList) +
        [IndexList(Shift(v, vbaseIndex), Shift(vn, vnbaseIndex), Shift(uv0, uv0baseIndex), Shift(uv1, uv1baseIndex), vc)]
    {
      currentMaterialPolys.AddPoint(Shift(v, vbaseIndex), Shift(vn, vnbaseIndex), Shift(uv0, uv0baseIndex), Shift(uv1, uv1baseIndex), vc);
    }

    /**
     * `CGeoModel.EndPoly`: the current material ends its polygon and is
     * filed under its name; there is no current material afterwards.
     */
    method EndPoly()
      requires Valid()
      requires currentMaterialPolys != null && currentMaterialPolys.currentPoly != null
      modifies this, currentMaterialPolys
      ensures old(currentMaterialPolys).currentPoly == null
      ensures var m, points := old(currentMaterialPolys), old(currentMaterialPolys.currentPoly.pointsList);
        m.triList == old(m.triList) + (if |points| == 3 then [points] else []) &&
        m.quadList == old(m.quadList) + (if |points| == 4 then [points] else []) &&
        State() == old(State()).(materials := old(materialsDict)[m.name := m], current := null)
      ensures Valid()
    {
      var m := currentMaterialPolys;
      m.EndPoly();
      materialsDict := materialsDict[m.name := m];
      currentMaterialPolys := null;
    }

    /** `NewObject`: the next object's indices start at the current ends of the streams. */
    method NewObject()
      requires Valid()
      modifies this
      ensures State() == old(State()).(vbaseIndex := |vList|, vnbaseIndex := |vnList|,
                                       uv0baseIndex := |uv0List|, uv1baseIndex := |uv1List|)
      ensures Valid()
    {
      vbaseIndex := |vList|;
      vnbaseIndex := |vnList|;
      uv0baseIndex := |uv0List|;
      uv1baseIndex := |uv1List|;
    }

    /**
     * `ClearAllExceptMaterials`: empty streams, bases and skin tables for
     * the next mesh; the materials stay filed under their names with their
     * polygons dropped.
     */
    method ClearAllExceptMaterials()
      requires Valid()
      modifies this, materialsDict.Values
      ensures State() == GeoState(old(materialsDict), [], [], [], [], [], null, 0, 0, 0, 0, "", map[], map[])
      ensures forall k :: k in materialsDict ==>
        materialsDict[k].triList == [] && materialsDict[k].quadList == [] && materialsDict[k].currentPoly == null
      ensures Valid()
    {
      ResetStreams();
      ClearPolysOf(materialsDict.Values);
    }

    /** Empties the five streams. */
    method ClearStreams()
      modifies this
      ensures State() == old(State()).(vList := [], vnList := [], vcList := [], uv0List := [], uv1List := [])
    {
      vList, vnList, vcList, uv0List, uv1List := [], [], [], [], [];
    }

    /** The part of `ClearAllExceptMaterials` that changes the model's own fields. */
    method ResetStreams()
      modifies this
      ensures State() == GeoState(old(materialsDict), [], [], [], [], [], null, 0, 0, 0, 0, "", map[], map[])
    {
      ClearStreams();
      currentMaterialPolys := null;
      vbaseIndex, vnbaseIndex, uv0baseIndex, uv1baseIndex := 0, 0, 0, 0;
      useBonesDict := map[];
      mapVertexGroupNames := map[];
      armatureObjectName := "";
    }
  }

  /** The loop of `ClearAllExceptMaterials` over the filed materials. */
  method ClearPolysOf(materials: set<GeoMaterialPolys>)
    modifies materials
    ensures forall m :: m in materials ==> m.triList == [] && m.quadList == [] && m.currentPoly == null && m.Valid()
  {
    var rest := materials;
    while rest != {}
      invariant rest <= materials
      invariant forall m :: m in materials && m !in rest ==> m.triList == [] && m.quadList == [] && m.currentPoly == null
      decreases |rest|
    {
      var m :| m in rest;
      m.ClearPolys();
      rest := rest - {m};
    }
  }
}
