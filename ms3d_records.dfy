/**
 * The on-disk records of a MilkShape 3D file: header, vertex, triangle,
 * group, material, keyframe, joint, the two comment records and the extra
 * records (`VertexEx1`/`2`/`3`, `JointEx`, `ModelEx`).
 *
 * Each record has a datatype, a pure `DecodeX` / `EmitX` pair fixing its
 * byte layout, a round-trip lemma and `ReadX` / `WriteX` methods that move a
 * file cursor field by field and are proved equal to the pure pair.
 *
 * Reading a record never touches the objects attached to it afterwards by
 * the model (a vertex's extra record, a joint's extra record, the comment of
 * a group, material or joint): a freshly read record holds the defaults the
 * record classes construct.
 */
module Ms3dRecords {
  import opened Wrappers
  import opened Ms3dIo

  // Values of `Ms3dSpec`.
  const MAX_VERTICES: nat := 65534
  const MAX_TRIANGLES: nat := 65534
  const MAX_GROUPS: nat := 255
  const MAX_MATERIALS: nat := 128
  const MAX_JOINTS: nat := 128

  const FLAG_NONE := 0
  const HEADER := "MS3D000000"
  const DEFAULT_HEADER_VERSION := 4
  const NONE_VERTEX_BONE_ID := -1
  const NONE_GROUP_MATERIAL_INDEX := -1
  const FLAG_TEXTURE_NONE := 0
  const MODE_TRANSPARENCY_SIMPLE := 0

  /** The bit patterns of the float constants 0.0, 1.0 and 25.0. */
  const FLOAT_ZERO := 0
  const FLOAT_ONE := 0x3F80_0000
  const FLOAT_25 := 0x41C8_0000

  // ------------------------------------------------------------- datatypes

  datatype Header = Header(id: string, version: int)

  /** The extra vertex data: bone ids and weights, plus a dword from sub-version 2 on. */
  datatype VertexEx =
    | VertexEx1(boneIds: seq<int>, weights: seq<int>)
    | VertexEx2(boneIds: seq<int>, weights: seq<int>, extra: int)
    | VertexEx3(boneIds: seq<int>, weights: seq<int>, extra: int)

  datatype Vertex = Vertex(flags: int, vertex: seq<int>, boneId: int, referenceCount: int, ex: VertexEx)

  datatype Triangle = Triangle(
    flags: int, vertexIndices: seq<int>, vertexNormals: seq<seq<int>>,
    s: seq<int>, t: seq<int>, smoothingGroup: int, groupIndex: int)

  /** A comment attached by index to a group, material or joint. */
  datatype CommentEx = CommentEx(index: int, comment: string)

  datatype Group = Group(flags: int, name: string, triangleIndices: seq<int>, materialIndex: int, comment: CommentEx)

  datatype Material = Material(
    name: string, ambient: seq<int>, diffuse: seq<int>, specular: seq<int>, emissive: seq<int>,
    shininess: int, transparency: int, mode: int, texture: string, alphamap: string, comment: CommentEx)

  /**
   * A rotation or a translation keyframe: both records are a time followed
   * by three floats.
   */
  datatype Keyframe = Keyframe(time: int, vector: seq<int>)

  datatype JointEx = JointEx(color: seq<int>)

  datatype Joint = Joint(
    flags: int, name: string, parentName: string, rotation: seq<int>, position: seq<int>,
    rotationKeyframes: seq<Keyframe>, translationKeyframes: seq<Keyframe>, ex: JointEx, comment: CommentEx)

  /** The model comment. */
  datatype Comment = Comment(comment: string)

  datatype ModelEx = ModelEx(jointSize: int, transparencyMode: int, alphaRef: int)

  // ---------------------------------------------------------------- defaults

  const DefaultHeader := Header(HEADER, DEFAULT_HEADER_VERSION)
  const DefaultVertexEx := VertexEx2([NONE_VERTEX_BONE_ID, NONE_VERTEX_BONE_ID, NONE_VERTEX_BONE_ID], [0, 0, 0], 0)
  const DefaultCommentEx := CommentEx(0, "")
  const DefaultJointEx := JointEx([FLOAT_ZERO, FLOAT_ZERO, FLOAT_ZERO])
  const DefaultModelEx := ModelEx(FLOAT_ONE, MODE_TRANSPARENCY_SIMPLE, FLOAT_ZERO)

  // ---------------------------------------------------- derived properties

  /** `weight_bone_id`: the weight tuple when any weight is set, otherwise 100. */
  datatype BoneWeight = WeightTuple(weights: seq<int>) | WeightPercent(percent: int)

  predicate AnyWeight(ex: VertexEx)
  {
    |ex.weights| == 3 && (ex.weights[0] != 0 || ex.weights[1] != 0 || ex.weights[2] != 0)
  }

  function WeightBoneId(ex: VertexEx): BoneWeight
  {
    if AnyWeight(ex) then WeightTuple(ex.weights) else WeightPercent(100)
  }

  function WeightBoneId0(ex: VertexEx): int
  {
    if AnyWeight(ex) then ex.weights[0] else 0
  }

  function WeightBoneId1(ex: VertexEx): int
  {
    if AnyWeight(ex) then ex.weights[1] else 0
  }

  function WeightBoneId2(ex: VertexEx): int
  {
    if AnyWeight(ex) then 100 - (ex.weights[0] + ex.weights[1] + ex.weights[2]) else 0
  }

  /**
   * The three derived weights are all 0 without weights; otherwise they are
   * the first two weights and what makes the three stored weights sum to 100.
   */
  lemma DerivedWeights(ex: VertexEx)
    ensures !AnyWeight(ex) ==>
      WeightBoneId(ex) == WeightPercent(100) &&
      WeightBoneId0(ex) == 0 && WeightBoneId1(ex) == 0 && WeightBoneId2(ex) == 0
    ensures AnyWeight(ex) ==>
      WeightBoneId(ex) == WeightTuple(ex.weights) &&
      WeightBoneId0(ex) == ex.weights[0] && WeightBoneId1(ex) == ex.weights[1] &&
      ex.weights[0] + ex.weights[1] + ex.weights[2] + WeightBoneId2(ex) == 100
  {
  }

  /** `number_triangles`, `number_rotation_keyframes`, ...: counts are list lengths. */
  function NumberTriangles(g: Group): nat { |g.triangleIndices| }

  // ------------------------------------------------------ lists of records

  /**
   * A loop reading `count` records with `dec`, appending them to `acc`. A turn
   * of the loop is spelt out over `DecodeTurn` and `DecodeRecordThen`, so that
   * unfolding the loop twice does not yet reach the record decoder.
   */
  function DecodeManyFrom<T>(dec: seq<uint8> -> Decoded<T>, count: nat, s: seq<uint8>, acc: seq<T>)
    : Decoded<seq<T>>
    decreases count, 2
  {
    if count == 0 then Decoded(acc, s) else DecodeTurn(dec, count - 1, s, acc)
  }

  /** A turn of the loop with `more` records still to read after this one. */
  function DecodeTurn<T>(dec: seq<uint8> -> Decoded<T>, more: nat, s: seq<uint8>, acc: seq<T>)
    : Decoded<seq<T>>
    decreases more + 1, 1
  {
    DecodeRecordThen(dec, more, s, acc)
  }

  /** The record at the head of `s`, then the `more` records after it. */
  function DecodeRecordThen<T>(dec: seq<uint8> -> Decoded<T>, more: nat, s: seq<uint8>, acc: seq<T>)
    : Decoded<seq<T>>
    decreases more + 1, 0
  {
    match dec(s)
    case Truncated => Truncated
    case Decoded(x, s') => DecodeManyFrom(dec, more, s', acc + [x])
  }

  /** One turn of the reading loop: it stops at a truncated record and otherwise goes on after it. */
  lemma DecodeManyNext<T>(dec: seq<uint8> -> Decoded<T>, count: nat, s: seq<uint8>, acc: seq<T>)
    requires count > 0
    ensures dec(s).Truncated? ==> DecodeManyFrom(dec, count, s, acc) == Truncated
    ensures dec(s).Decoded? ==>
      DecodeManyFrom(dec, count, s, acc) == DecodeManyFrom(dec, count - 1, dec(s).rest, acc + [dec(s).value])
  {
    assert DecodeManyFrom(dec, count, s, acc) == DecodeRecordThen(dec, count - 1, s, acc);
  }

  /** One item of a read loop, in terms of what reading the item gave. */
  lemma DecodeManyStep<T>(dec: seq<uint8> -> Decoded<T>, count: nat, s: seq<uint8>, acc: seq<T>, r: Option<T>, s': seq<uint8>)
    requires count > 0 && Outcome(r, s') == dec(s)
    ensures r.None? ==> DecodeManyFrom(dec, count, s, acc) == Truncated
    ensures r.Some? ==> DecodeManyFrom(dec, count, s, acc) == DecodeManyFrom(dec, count - 1, s', acc + [r.value])
  {
    DecodeManyNext(dec, count, s, acc);
  }

  /** A loop writing every record of `xs` in order with `emit`. */
  function EmitMany<T>(emit: T -> Emitted, xs: seq<T>): Emitted
  {
    if xs == [] then Nothing else emit(xs[0]).Then(EmitMany(emit, xs[1..]))
  }

  /** Writing `x` with `emit` succeeds, and reading the bytes back with `dec` gives `y`, whatever follows. */
  ghost predicate ReadsBackAs<T>(dec: seq<uint8> -> Decoded<T>, emit: T -> Emitted, x: T, y: T)
  {
    emit(x).ok && forall r :: dec(emit(x).bytes + r) == Decoded(y, r)
  }

  /** If every record reads back as its counterpart in `ys`, the whole list does. */
  lemma {:induction false} ManyRoundTrip<T>(dec: seq<uint8> -> Decoded<T>, emit: T -> Emitted,
                                            xs: seq<T>, ys: seq<T>, rest: seq<uint8>, acc: seq<T>)
    requires |xs| == |ys|
    requires forall i :: 0 <= i < |xs| ==> ReadsBackAs(dec, emit, xs[i], ys[i])
    ensures EmitMany(emit, xs).ok
    ensures DecodeManyFrom(dec, |xs|, EmitMany(emit, xs).bytes + rest, acc) == Decoded(acc + ys, rest)
  {
    if xs == [] {
      assert acc + ys == acc;
    } else {
      var more := EmitMany(emit, xs[1..]);
      forall i | 0 <= i < |xs[1..]|
        ensures ReadsBackAs(dec, emit, xs[1..][i], ys[1..][i])
      {
        assert xs[1..][i] == xs[i + 1] && ys[1..][i] == ys[i + 1];
      }
      ManyRoundTrip(dec, emit, xs[1..], ys[1..], rest, acc + [ys[0]]);
      var head := emit(xs[0]);
      assert ReadsBackAs(dec, emit, xs[0], ys[0]);
      assert dec(head.bytes + (more.bytes + rest)) == Decoded(ys[0], more.bytes + rest);
      assert head.bytes + more.bytes + rest == head.bytes + (more.bytes + rest);
      DecodeManyNext(dec, |xs|, head.bytes + (more.bytes + rest), acc);
      assert acc + [ys[0]] + ys[1..] == acc + ys;
    }
  }

  /** `ManyRoundTrip` from an empty accumulator: the list reads back as `ys`. */
  lemma ListRoundTrip<T>(dec: seq<uint8> -> Decoded<T>, emit: T -> Emitted, xs: seq<T>, ys: seq<T>, rest: seq<uint8>)
    requires |xs| == |ys|
    requires forall i :: 0 <= i < |xs| ==> ReadsBackAs(dec, emit, xs[i], ys[i])
    ensures EmitMany(emit, xs).ok
    ensures DecodeManyFrom(dec, |xs|, EmitMany(emit, xs).bytes + rest, []) == Decoded(ys, rest)
  {
    ManyRoundTrip(dec, emit, xs, ys, rest, []);
    assert [] + ys == ys;
  }

  /** A list of records that all emit exactly `size` bytes emits `size` bytes per record. */
  lemma {:induction false} EmitManySize<T>(emit: T -> Emitted, xs: seq<T>, size: nat)
    requires forall i :: 0 <= i < |xs| ==> emit(xs[i]).ok ==> |emit(xs[i]).bytes| == size
    ensures EmitMany(emit, xs).ok ==> |EmitMany(emit, xs).bytes| == |xs| * size
  {
    if xs != [] {
      forall i | 0 <= i < |xs[1..]|
        ensures emit(xs[1..][i]).ok ==> |emit(xs[1..][i]).bytes| == size
      {
        assert xs[1..][i] == xs[i + 1];
      }
      EmitManySize(emit, xs[1..], size);
      assert |xs| * size == size + (|xs| - 1) * size;
    }
  }

  // ------------------------------------------------------------ well-formed

  /** `n` values that each fit the scalar kind `k`. */
  predicate Values(k: Scalar, xs: seq<int>, n: nat)
  {
    |xs| == n && forall i :: 0 <= i < n ==> InRange(k, xs[i])
  }

  /** A text that fits a field of `length` bytes and reads back unchanged. */
  predicate Text(s: string, length: nat)
  {
    |s| <= length && forall i :: 0 <= i < |s| ==> Printable(s[i])
  }

  predicate ValidHeader(h: Header)
  {
    Text(h.id, LENGTH_ID) && InRange(DWord, h.version)
  }

  predicate ValidVertex(v: Vertex)
  {
    InRange(Byte, v.flags) && Values(Float, v.vertex, 3) && InRange(SByte, v.boneId) && InRange(Byte, v.referenceCount)
  }

  predicate ValidTriangle(t: Triangle)
  {
    InRange(Word, t.flags) && Values(Word, t.vertexIndices, 3) &&
    |t.vertexNormals| == 3 && (forall i :: 0 <= i < 3 ==> Values(Float, t.vertexNormals[i], 3)) &&
    Values(Float, t.s, 3) && Values(Float, t.t, 3) &&
    InRange(Byte, t.smoothingGroup) && InRange(Byte, t.groupIndex)
  }

  predicate ValidGroup(g: Group)
  {
    InRange(Byte, g.flags) && Text(g.name, LENGTH_NAME) &&
    Values(Word, g.triangleIndices, |g.triangleIndices|) && InRange(Word, |g.triangleIndices|) &&
    InRange(SByte, g.materialIndex)
  }

  predicate ValidMaterial(m: Material)
  {
    Text(m.name, LENGTH_NAME) &&
    Values(Float, m.ambient, 4) && Values(Float, m.diffuse, 4) &&
    Values(Float, m.specular, 4) && Values(Float, m.emissive, 4) &&
    InRange(Float, m.shininess) && InRange(Float, m.transparency) && InRange(SByte, m.mode) &&
    Text(m.texture, LENGTH_FILENAME) && Text(m.alphamap, LENGTH_FILENAME)
  }

  predicate ValidKeyframe(k: Keyframe)
  {
    InRange(Float, k.time) && Values(Float, k.vector, 3)
  }

  predicate ValidJoint(j: Joint)
  {
    InRange(Byte, j.flags) && Text(j.name, LENGTH_NAME) && Text(j.parentName, LENGTH_NAME) &&
    Values(Float, j.rotation, 3) && Values(Float, j.position, 3) &&
    InRange(Word, |j.rotationKeyframes|) && InRange(Word, |j.translationKeyframes|) &&
    (forall i :: 0 <= i < |j.rotationKeyframes| ==> ValidKeyframe(j.rotationKeyframes[i])) &&
    (forall i :: 0 <= i < |j.translationKeyframes| ==> ValidKeyframe(j.translationKeyframes[i]))
  }

  predicate ValidCommentEx(c: CommentEx)
  {
    InRange(DWord, c.index) && InRange(DWord, |c.comment|) && Text(c.comment, |c.comment|)
  }

  predicate ValidComment(c: Comment)
  {
    InRange(DWord, |c.comment|) && Text(c.comment, |c.comment|)
  }

  predicate ValidVertexEx(ex: VertexEx)
  {
    Values(SByte, ex.boneIds, 3) && Values(Byte, ex.weights, 3) && (!ex.VertexEx1? ==> InRange(DWord, ex.extra))
  }

  predicate ValidJointEx(ex: JointEx)
  {
    Values(Float, ex.color, 3)
  }

  predicate ValidModelEx(ex: ModelEx)
  {
    InRange(Float, ex.jointSize) && InRange(DWord, ex.transparencyMode) && InRange(Float, ex.alphaRef)
  }

  // ------------------------------------------------------------ byte layout

  /** `Ms3dHeader.read`. */
  function DecodeHeader(s: seq<uint8>): Decoded<Header>
  {
    var id :- DecodeString(LENGTH_ID, s);
    var version :- DecodeScalar(DWord, id.rest);
    Decoded(Header(id.value, version.value), version.rest)
  }

  /** `Ms3dHeader.write`. */
  function EmitHeader(h: Header): Emitted
  {
    EmitString(LENGTH_ID, h.id).Then(EmitScalar(DWord, h.version))
  }

  /** `Ms3dVertex.read`: the new vertex keeps the default extra record. */
  function DecodeVertex(s: seq<uint8>): Decoded<Vertex>
  {
    var flags :- DecodeScalar(Byte, s);
    var vertex :- DecodeArray(Float, 3, flags.rest);
    var boneId :- DecodeScalar(SByte, vertex.rest);
    var referenceCount :- DecodeScalar(Byte, boneId.rest);
    Decoded(Vertex(flags.value, vertex.value, boneId.value, referenceCount.value, DefaultVertexEx),
            referenceCount.rest)
  }

  /** `Ms3dVertex.write`. */
  function EmitVertex(v: Vertex): Emitted
  {
    EmitScalar(Byte, v.flags)
      .Then(EmitArray(Float, 3, v.vertex)
      .Then(EmitScalar(SByte, v.boneId)
      .Then(EmitScalar(Byte, v.referenceCount))))
  }

  /** `Ms3dTriangle.read`. */
  function DecodeTriangle(s: seq<uint8>): Decoded<Triangle>
  {
    var flags :- DecodeScalar(Word, s);
    var indices :- DecodeArray(Word, 3, flags.rest);
    var normals :- DecodeArray2(Float, 3, 3, indices.rest);
    var ss :- DecodeArray(Float, 3, normals.rest);
    var ts :- DecodeArray(Float, 3, ss.rest);
    var smoothing :- DecodeScalar(Byte, ts.rest);
    var group :- DecodeScalar(Byte, smoothing.rest);
    Decoded(Triangle(flags.value, indices.value, normals.value, ss.value, ts.value, smoothing.value, group.value),
            group.rest)
  }

  /** `Ms3dTriangle.write`. */
  function EmitTriangle(t: Triangle): Emitted
  {
    EmitScalar(Word, t.flags)
      .Then(EmitArray(Word, 3, t.vertexIndices)
      .Then(EmitArray2(Float, 3, 3, t.vertexNormals)
      .Then(EmitArray(Float, 3, t.s)
      .Then(EmitArray(Float, 3, t.t)
      .Then(EmitScalar(Byte, t.smoothingGroup)
      .Then(EmitScalar(Byte, t.groupIndex)))))))
  }

  /** `Ms3dGroup.read`: the triangle count comes first; the new group keeps the default comment. */
  function DecodeGroup(s: seq<uint8>): Decoded<Group>
  {
    var flags :- DecodeScalar(Byte, s);
    var name :- DecodeString(LENGTH_NAME, flags.rest);
    var n :- DecodeScalar(Word, name.rest);
    var indices :- DecodeArray(Word, n.value, n.rest);
    var material :- DecodeScalar(SByte, indices.rest);
    Decoded(Group(flags.value, name.value, indices.value, material.value, DefaultCommentEx), material.rest)
  }

  /** `Ms3dGroup.write`: the triangle count is the length of the index list. */
  function EmitGroup(g: Group): Emitted
  {
    EmitScalar(Byte, g.flags)
      .Then(EmitString(LENGTH_NAME, g.name)
      .Then(EmitScalar(Word, NumberTriangles(g))
      .Then(EmitArray(Word, NumberTriangles(g), g.triangleIndices)
      .Then(EmitScalar(SByte, g.materialIndex)))))
  }

  /** `Ms3dMaterial.read`: the new material keeps the default comment. */
  function DecodeMaterial(s: seq<uint8>): Decoded<Material>
  {
    var name :- DecodeString(LENGTH_NAME, s);
    var ambient :- DecodeArray(Float, 4, name.rest);
    var diffuse :- DecodeArray(Float, 4, ambient.rest);
    var specular :- DecodeArray(Float, 4, diffuse.rest);
    var emissive :- DecodeArray(Float, 4, specular.rest);
    var shininess :- DecodeScalar(Float, emissive.rest);
    var transparency :- DecodeScalar(Float, shininess.rest);
    var mode :- DecodeScalar(SByte, transparency.rest);
    var texture :- DecodeString(LENGTH_FILENAME, mode.rest);
    var alphamap :- DecodeString(LENGTH_FILENAME, texture.rest);
    Decoded(Material(name.value, ambient.value, diffuse.value, specular.value, emissive.value,
                     shininess.value, transparency.value, mode.value, texture.value, alphamap.value,
                     DefaultCommentEx),
            alphamap.rest)
  }

  /** `Ms3dMaterial.write`. */
  function EmitMaterial(m: Material): Emitted
  {
    EmitString(LENGTH_NAME, m.name)
      .Then(EmitArray(Float, 4, m.ambient)
      .Then(EmitArray(Float, 4, m.diffuse)
      .Then(EmitArray(Float, 4, m.specular)
      .Then(EmitArray(Float, 4, m.emissive)
      .Then(EmitScalar(Float, m.shininess)
      .Then(EmitScalar(Float, m.transparency)
      .Then(EmitScalar(SByte, m.mode)
      .Then(EmitString(LENGTH_FILENAME, m.texture)
      .Then(EmitString(LENGTH_FILENAME, m.alphamap))))))))))
  }

  /** `Ms3dRotationKeyframe.read` and `Ms3dTranslationKeyframe.read`. */
  function DecodeKeyframe(s: seq<uint8>): Decoded<Keyframe>
  {
    var time :- DecodeScalar(Float, s);
    var vector :- DecodeArray(Float, 3, time.rest);
    Decoded(Keyframe(time.value, vector.value), vector.rest)
  }

  /** `Ms3dRotationKeyframe.write` and `Ms3dTranslationKeyframe.write`. */
  function EmitKeyframe(k: Keyframe): Emitted
  {
    EmitScalar(Float, k.time).Then(EmitArray(Float, 3, k.vector))
  }

  /**
   * `Ms3dJoint.read`: both keyframe counts precede both keyframe lists; the
   * new joint keeps the default extra record and comment.
   */
  function DecodeJoint(s: seq<uint8>): Decoded<Joint>
  {
    var flags :- DecodeScalar(Byte, s);
    var name :- DecodeString(LENGTH_NAME, flags.rest);
    var parent :- DecodeString(LENGTH_NAME, name.rest);
    var rotation :- DecodeArray(Float, 3, parent.rest);
    var position :- DecodeArray(Float, 3, rotation.rest);
    var nr :- DecodeScalar(Word, position.rest);
    var nt :- DecodeScalar(Word, nr.rest);
    var rks :- DecodeManyFrom(DecodeKeyframe, nr.value, nt.rest, []);
    var tks :- DecodeManyFrom(DecodeKeyframe, nt.value, rks.rest, []);
    Decoded(Joint(flags.value, name.value, parent.value, rotation.value, position.value,
                  rks.value, tks.value, DefaultJointEx, DefaultCommentEx),
            tks.rest)
  }

  /** `Ms3dJoint.write`: the keyframe counts are the lengths of the keyframe lists. */
  function EmitJoint(j: Joint): Emitted
  {
    EmitScalar(Byte, j.flags)
      .Then(EmitString(LENGTH_NAME, j.name)
      .Then(EmitString(LENGTH_NAME, j.parentName)
      .Then(EmitArray(Float, 3, j.rotation)
      .Then(EmitArray(Float, 3, j.position)
      .Then(EmitScalar(Word, |j.rotationKeyframes|)
      .Then(EmitScalar(Word, |j.translationKeyframes|)
      .Then(EmitMany(EmitKeyframe, j.rotationKeyframes)
      .Then(EmitMany(EmitKeyframe, j.translationKeyframes)))))))))
  }

  /** `Ms3dCommentEx.read`: index, length, then that many characters. */
  function DecodeCommentEx(s: seq<uint8>): Decoded<CommentEx>
  {
    var index :- DecodeScalar(DWord, s);
    var n :- DecodeScalar(DWord, index.rest);
    var comment :- DecodeString(n.value, n.rest);
    Decoded(CommentEx(index.value, comment.value), comment.rest)
  }

  /** `Ms3dCommentEx.write`: the length written is the length of the comment. */
  function EmitCommentEx(c: CommentEx): Emitted
  {
    EmitScalar(DWord, c.index)
      .Then(EmitScalar(DWord, |c.comment|)
      .Then(EmitString(|c.comment|, c.comment)))
  }

  /** `Ms3dComment.read`. */
  function DecodeComment(s: seq<uint8>): Decoded<Comment>
  {
    var n :- DecodeScalar(DWord, s);
    var comment :- DecodeString(n.value, n.rest);
    Decoded(Comment(comment.value), comment.rest)
  }

  /** `Ms3dComment.write`. */
  function EmitComment(c: Comment): Emitted
  {
    EmitScalar(DWord, |c.comment|).Then(EmitString(|c.comment|, c.comment))
  }

  /** `Ms3dVertexEx1.read` .. `Ms3dVertexEx3.read`, chosen by the sub-version. */
  function DecodeVertexEx(version: int, s: seq<uint8>): Decoded<VertexEx>
    requires 1 <= version <= 3
  {
    var boneIds :- DecodeArray(SByte, 3, s);
    var weights :- DecodeArray(Byte, 3, boneIds.rest);
    if version == 1 then Decoded(VertexEx1(boneIds.value, weights.value), weights.rest)
    else
      var extra :- DecodeScalar(DWord, weights.rest);
      if version == 2 then Decoded(VertexEx2(boneIds.value, weights.value, extra.value), extra.rest)
      else Decoded(VertexEx3(boneIds.value, weights.value, extra.value), extra.rest)
  }

  /** The sub-version whose reader builds this kind of extra record. */
  function VersionOf(ex: VertexEx): (v: int)
    ensures 1 <= v <= 3
  {
    match ex
    case VertexEx1(_, _) => 1
    case VertexEx2(_, _, _) => 2
    case VertexEx3(_, _, _) => 3
  }

  /** `Ms3dVertexEx1.write` .. `Ms3dVertexEx3.write`, by the record's own class. */
  function EmitVertexEx(ex: VertexEx): Emitted
  {
    var ids := EmitArray(SByte, 3, ex.boneIds).Then(EmitArray(Byte, 3, ex.weights));
    if ex.VertexEx1? then ids else ids.Then(EmitScalar(DWord, ex.extra))
  }

  /** `Ms3dJointEx.read`. */
  function DecodeJointEx(s: seq<uint8>): Decoded<JointEx>
  {
    var color :- DecodeArray(Float, 3, s);
    Decoded(JointEx(color.value), color.rest)
  }

  /** `Ms3dJointEx.write`. */
  function EmitJointEx(ex: JointEx): Emitted
  {
    EmitArray(Float, 3, ex.color)
  }

  /** `Ms3dModelEx.read`. */
  function DecodeModelEx(s: seq<uint8>): Decoded<ModelEx>
  {
    var jointSize :- DecodeScalar(Float, s);
    var mode :- DecodeScalar(DWord, jointSize.rest);
    var alphaRef :- DecodeScalar(Float, mode.rest);
    Decoded(ModelEx(jointSize.value, mode.value, alphaRef.value), alphaRef.rest)
  }

  /** `Ms3dModelEx.write`. */
  function EmitModelEx(ex: ModelEx): Emitted
  {
    EmitScalar(Float, ex.jointSize)
      .Then(EmitScalar(DWord, ex.transparencyMode)
      .Then(EmitScalar(Float, ex.alphaRef)))
  }

  // ----------------------------------------------------------- record sizes

  lemma HeaderSize(h: Header)
    ensures EmitHeader(h).ok ==> |EmitHeader(h).bytes| == 14
  {
  }

  lemma VertexSize(v: Vertex)
    ensures EmitVertex(v).ok ==> |EmitVertex(v).bytes| == 15
  {
    EmitArraySize(Float, 3, v.vertex);
  }

  lemma TriangleSize(t: Triangle)
    ensures EmitTriangle(t).ok ==> |EmitTriangle(t).bytes| == 70
  {
    EmitArraySize(Word, 3, t.vertexIndices);
    EmitArray2Size(Float, 3, 3, t.vertexNormals);
    EmitArraySize(Float, 3, t.s);
    EmitArraySize(Float, 3, t.t);
  }

  lemma GroupSize(g: Group)
    ensures EmitGroup(g).ok ==> |EmitGroup(g).bytes| == 36 + 2 * |g.triangleIndices|
  {
    EmitArraySize(Word, |g.triangleIndices|, g.triangleIndices);
  }

  lemma MaterialSize(m: Material)
    ensures EmitMaterial(m).ok ==> |EmitMaterial(m).bytes| == 361
  {
    EmitArraySize(Float, 4, m.ambient);
    EmitArraySize(Float, 4, m.diffuse);
    EmitArraySize(Float, 4, m.specular);
    EmitArraySize(Float, 4, m.emissive);
  }

  lemma KeyframeSize(k: Keyframe)
    ensures EmitKeyframe(k).ok ==> |EmitKeyframe(k).bytes| == 16
  {
    EmitArraySize(Float, 3, k.vector);
  }

  lemma JointSize(j: Joint)
    ensures EmitJoint(j).ok ==>
      |EmitJoint(j).bytes| == 93 + 16 * (|j.rotationKeyframes| + |j.translationKeyframes|)
  {
    EmitArraySize(Float, 3, j.rotation);
    EmitArraySize(Float, 3, j.position);
    KeyframesSize(j.rotationKeyframes);
    KeyframesSize(j.translationKeyframes);
  }

  lemma KeyframesSize(ks: seq<Keyframe>)
    ensures EmitMany(EmitKeyframe, ks).ok ==> |EmitMany(EmitKeyframe, ks).bytes| == 16 * |ks|
  {
    forall i | 0 <= i < |ks| {
      KeyframeSize(ks[i]);
    }
    EmitManySize(EmitKeyframe, ks, 16);
  }

  lemma CommentExSize(c: CommentEx)
    ensures EmitCommentEx(c).ok ==> |EmitCommentEx(c).bytes| == 8 + |c.comment|
  {
  }

  lemma CommentSize(c: Comment)
    ensures EmitComment(c).ok ==> |EmitComment(c).bytes| == 4 + |c.comment|
  {
  }

  lemma VertexExSize(ex: VertexEx)
    ensures EmitVertexEx(ex).ok ==> |EmitVertexEx(ex).bytes| == if ex.VertexEx1? then 6 else 10
  {
    EmitArraySize(SByte, 3, ex.boneIds);
    EmitArraySize(Byte, 3, ex.weights);
  }

  lemma JointExSize(ex: JointEx)
    ensures EmitJointEx(ex).ok ==> |EmitJointEx(ex).bytes| == 12
  {
    EmitArraySize(Float, 3, ex.color);
  }

  lemma ModelExSize(ex: ModelEx)
    ensures EmitModelEx(ex).ok ==> |EmitModelEx(ex).bytes| == 12
  {
  }

  // ------------------------------------------------------------ round trips

  /** Bytes of a successful write followed by more writes and then `rest`. */
  lemma Glue(a: Emitted, b: Emitted, rest: seq<uint8>)
    requires a.ok
    ensures a.Then(b).ok == b.ok
    ensures a.Then(b).bytes + rest == a.bytes + (b.bytes + rest)
  {
  }

  /** Reading back a valid header gives it unchanged. */
  lemma HeaderRoundTrip(h: Header, rest: seq<uint8>)
    requires ValidHeader(h)
    ensures EmitHeader(h).ok
    ensures DecodeHeader(EmitHeader(h).bytes + rest) == Decoded(h, rest)
  {
    var e2 := EmitScalar(DWord, h.version);
    var e1 := EmitString(LENGTH_ID, h.id);
    ScalarRoundTrip(DWord, h.version, rest);
    StringRoundTrip(LENGTH_ID, h.id, e2.bytes + rest);
    Glue(e1, e2, rest);
  }

  /** Reading back a valid vertex gives it with the default extra record. */
  lemma VertexRoundTrip(v: Vertex, rest: seq<uint8>)
    requires ValidVertex(v)
    ensures EmitVertex(v).ok
    ensures DecodeVertex(EmitVertex(v).bytes + rest) == Decoded(v.(ex := DefaultVertexEx), rest)
  {
    var e4 := EmitScalar(Byte, v.referenceCount);
    var e3 := EmitScalar(SByte, v.boneId).Then(e4);
    var e2 := EmitArray(Float, 3, v.vertex).Then(e3);
    ScalarRoundTrip(Byte, v.referenceCount, rest);
    ScalarRoundTrip(SByte, v.boneId, e4.bytes + rest);
    Glue(EmitScalar(SByte, v.boneId), e4, rest);
    ArrayReadsBack(Float, v.vertex, e3.bytes + rest);
    Glue(EmitArray(Float, 3, v.vertex), e3, rest);
    ScalarRoundTrip(Byte, v.flags, e2.bytes + rest);
    Glue(EmitScalar(Byte, v.flags), e2, rest);
  }

  lemma NormalsReadBack(normals: seq<seq<int>>, rest: seq<uint8>)
    requires |normals| == 3 && forall i :: 0 <= i < 3 ==> Values(Float, normals[i], 3)
    ensures EmitArray2(Float, 3, 3, normals).ok
    ensures DecodeArray2(Float, 3, 3, EmitArray2(Float, 3, 3, normals).bytes + rest) == Decoded(normals, rest)
  {
    Array2ReadsBack(Float, 3, normals, rest);
  }

  /** Reading back a valid triangle gives it unchanged. */
  lemma TriangleRoundTrip(t: Triangle, rest: seq<uint8>)
    requires ValidTriangle(t)
    ensures EmitTriangle(t).ok
    ensures DecodeTriangle(EmitTriangle(t).bytes + rest) == Decoded(t, rest)
  {
    var e7 := EmitScalar(Byte, t.groupIndex);
    var e6 := EmitScalar(Byte, t.smoothingGroup).Then(e7);
    var e5 := EmitArray(Float, 3, t.t).Then(e6);
    var e4 := EmitArray(Float, 3, t.s).Then(e5);
    var e3 := EmitArray2(Float, 3, 3, t.vertexNormals).Then(e4);
    var e2 := EmitArray(Word, 3, t.vertexIndices).Then(e3);
    ScalarRoundTrip(Byte, t.groupIndex, rest);
    ScalarRoundTrip(Byte, t.smoothingGroup, e7.bytes + rest);
    Glue(EmitScalar(Byte, t.smoothingGroup), e7, rest);
    ArrayReadsBack(Float, t.t, e6.bytes + rest);
    Glue(EmitArray(Float, 3, t.t), e6, rest);
    ArrayReadsBack(Float, t.s, e5.bytes + rest);
    Glue(EmitArray(Float, 3, t.s), e5, rest);
    NormalsReadBack(t.vertexNormals, e4.bytes + rest);
    Glue(EmitArray2(Float, 3, 3, t.vertexNormals), e4, rest);
    ArrayReadsBack(Word, t.vertexIndices, e3.bytes + rest);
    Glue(EmitArray(Word, 3, t.vertexIndices), e3, rest);
    ScalarRoundTrip(Word, t.flags, e2.bytes + rest);
    Glue(EmitScalar(Word, t.flags), e2, rest);
  }

  /** Reading back a valid group gives it with the default comment. */
  lemma GroupRoundTrip(g: Group, rest: seq<uint8>)
    requires ValidGroup(g)
    ensures EmitGroup(g).ok
    ensures DecodeGroup(EmitGroup(g).bytes + rest) == Decoded(g.(comment := DefaultCommentEx), rest)
  {
    var n := |g.triangleIndices|;
    var e5 := EmitScalar(SByte, g.materialIndex);
    var e4 := EmitArray(Word, n, g.triangleIndices).Then(e5);
    var e3 := EmitScalar(Word, n).Then(e4);
    var e2 := EmitString(LENGTH_NAME, g.name).Then(e3);
    ScalarRoundTrip(SByte, g.materialIndex, rest);
    ArrayReadsBack(Word, g.triangleIndices, e5.bytes + rest);
    Glue(EmitArray(Word, n, g.triangleIndices), e5, rest);
    ScalarRoundTrip(Word, n, e4.bytes + rest);
    Glue(EmitScalar(Word, n), e4, rest);
    StringRoundTrip(LENGTH_NAME, g.name, e3.bytes + rest);
    Glue(EmitString(LENGTH_NAME, g.name), e3, rest);
    ScalarRoundTrip(Byte, g.flags, e2.bytes + rest);
    Glue(EmitScalar(Byte, g.flags), e2, rest);
  }

  /** Reading back a valid material gives it with the default comment. */
  lemma MaterialRoundTrip(m: Material, rest: seq<uint8>)
    requires ValidMaterial(m)
    ensures EmitMaterial(m).ok
    ensures DecodeMaterial(EmitMaterial(m).bytes + rest) == Decoded(m.(comment := DefaultCommentEx), rest)
  {
    var e10 := EmitString(LENGTH_FILENAME, m.alphamap);
    var e9 := EmitString(LENGTH_FILENAME, m.texture).Then(e10);
    var e8 := EmitScalar(SByte, m.mode).Then(e9);
    var e7 := EmitScalar(Float, m.transparency).Then(e8);
    var e6 := EmitScalar(Float, m.shininess).Then(e7);
    var e5 := EmitArray(Float, 4, m.emissive).Then(e6);
    var e4 := EmitArray(Float, 4, m.specular).Then(e5);
    var e3 := EmitArray(Float, 4, m.diffuse).Then(e4);
    var e2 := EmitArray(Float, 4, m.ambient).Then(e3);
    StringRoundTrip(LENGTH_FILENAME, m.alphamap, rest);
    StringRoundTrip(LENGTH_FILENAME, m.texture, e10.bytes + rest);
    Glue(EmitString(LENGTH_FILENAME, m.texture), e10, rest);
    ScalarRoundTrip(SByte, m.mode, e9.bytes + rest);
    Glue(EmitScalar(SByte, m.mode), e9, rest);
    ScalarRoundTrip(Float, m.transparency, e8.bytes + rest);
    Glue(EmitScalar(Float, m.transparency), e8, rest);
    ScalarRoundTrip(Float, m.shininess, e7.bytes + rest);
    Glue(EmitScalar(Float, m.shininess), e7, rest);
    ArrayReadsBack(Float, m.emissive, e6.bytes + rest);
    Glue(EmitArray(Float, 4, m.emissive), e6, rest);
    ArrayReadsBack(Float, m.specular, e5.bytes + rest);
    Glue(EmitArray(Float, 4, m.specular), e5, rest);
    ArrayReadsBack(Float, m.diffuse, e4.bytes + rest);
    Glue(EmitArray(Float, 4, m.diffuse), e4, rest);
    ArrayReadsBack(Float, m.ambient, e3.bytes + rest);
    Glue(EmitArray(Float, 4, m.ambient), e3, rest);
    StringRoundTrip(LENGTH_NAME, m.name, e2.bytes + rest);
    Glue(EmitString(LENGTH_NAME, m.name), e2, rest);
  }

  /** Reading back a valid keyframe gives it unchanged. */
  lemma KeyframeRoundTrip(k: Keyframe, rest: seq<uint8>)
    requires ValidKeyframe(k)
    ensures EmitKeyframe(k).ok
    ensures DecodeKeyframe(EmitKeyframe(k).bytes + rest) == Decoded(k, rest)
  {
    var e2 := EmitArray(Float, 3, k.vector);
    ArrayReadsBack(Float, k.vector, rest);
    ScalarRoundTrip(Float, k.time, e2.bytes + rest);
    Glue(EmitScalar(Float, k.time), e2, rest);
  }

  lemma KeyframesRoundTrip(ks: seq<Keyframe>, rest: seq<uint8>)
    requires forall i :: 0 <= i < |ks| ==> ValidKeyframe(ks[i])
    ensures EmitMany(EmitKeyframe, ks).ok
    ensures DecodeManyFrom(DecodeKeyframe, |ks|, EmitMany(EmitKeyframe, ks).bytes + rest, []) == Decoded(ks, rest)
  {
    forall i | 0 <= i < |ks|
      ensures ReadsBackAs(DecodeKeyframe, EmitKeyframe, ks[i], ks[i])
    {
      forall r: seq<uint8> {
        KeyframeRoundTrip(ks[i], r);
      }
    }
    ListRoundTrip(DecodeKeyframe, EmitKeyframe, ks, ks, rest);
  }

  /** Reading back a valid joint gives it with the default extra record and comment. */
  lemma JointRoundTrip(j: Joint, rest: seq<uint8>)
    requires ValidJoint(j)
    ensures EmitJoint(j).ok
    ensures DecodeJoint(EmitJoint(j).bytes + rest) == Decoded(j.(ex := DefaultJointEx, comment := DefaultCommentEx), rest)
  {
    var nr := |j.rotationKeyframes|;
    var nt := |j.translationKeyframes|;
    var e9 := EmitMany(EmitKeyframe, j.translationKeyframes);
    var e8 := EmitMany(EmitKeyframe, j.rotationKeyframes).Then(e9);
    var e7 := EmitScalar(Word, nt).Then(e8);
    var e6 := EmitScalar(Word, nr).Then(e7);
    var e5 := EmitArray(Float, 3, j.position).Then(e6);
    var e4 := EmitArray(Float, 3, j.rotation).Then(e5);
    var e3 := EmitString(LENGTH_NAME, j.parentName).Then(e4);
    var e2 := EmitString(LENGTH_NAME, j.name).Then(e3);
    KeyframesRoundTrip(j.translationKeyframes, rest);
    KeyframesRoundTrip(j.rotationKeyframes, e9.bytes + rest);
    Glue(EmitMany(EmitKeyframe, j.rotationKeyframes), e9, rest);
    ScalarRoundTrip(Word, nt, e8.bytes + rest);
    Glue(EmitScalar(Word, nt), e8, rest);
    ScalarRoundTrip(Word, nr, e7.bytes + rest);
    Glue(EmitScalar(Word, nr), e7, rest);
    ArrayReadsBack(Float, j.position, e6.bytes + rest);
    Glue(EmitArray(Float, 3, j.position), e6, rest);
    ArrayReadsBack(Float, j.rotation, e5.bytes + rest);
    Glue(EmitArray(Float, 3, j.rotation), e5, rest);
    StringRoundTrip(LENGTH_NAME, j.parentName, e4.bytes + rest);
    Glue(EmitString(LENGTH_NAME, j.parentName), e4, rest);
    StringRoundTrip(LENGTH_NAME, j.name, e3.bytes + rest);
    Glue(EmitString(LENGTH_NAME, j.name), e3, rest);
    ScalarRoundTrip(Byte, j.flags, e2.bytes + rest);
    Glue(EmitScalar(Byte, j.flags), e2, rest);
  }

  /** Reading back a valid indexed comment gives it unchanged. */
  lemma CommentExRoundTrip(c: CommentEx, rest: seq<uint8>)
    requires ValidCommentEx(c)
    ensures EmitCommentEx(c).ok
    ensures DecodeCommentEx(EmitCommentEx(c).bytes + rest) == Decoded(c, rest)
  {
    var n := |c.comment|;
    var e3 := EmitString(n, c.comment);
    var e2 := EmitScalar(DWord, n).Then(e3);
    StringRoundTrip(n, c.comment, rest);
    ScalarRoundTrip(DWord, n, e3.bytes + rest);
    Glue(EmitScalar(DWord, n), e3, rest);
    ScalarRoundTrip(DWord, c.index, e2.bytes + rest);
    Glue(EmitScalar(DWord, c.index), e2, rest);
  }

  /** Reading back a valid model comment gives it unchanged. */
  lemma CommentRoundTrip(c: Comment, rest: seq<uint8>)
    requires ValidComment(c)
    ensures EmitComment(c).ok
    ensures DecodeComment(EmitComment(c).bytes + rest) == Decoded(c, rest)
  {
    var n := |c.comment|;
    var e2 := EmitString(n, c.comment);
    StringRoundTrip(n, c.comment, rest);
    ScalarRoundTrip(DWord, n, e2.bytes + rest);
    Glue(EmitScalar(DWord, n), e2, rest);
  }

  /** Reading back a valid extra vertex record with its own sub-version gives it unchanged. */
  lemma VertexExRoundTrip(ex: VertexEx, rest: seq<uint8>)
    requires ValidVertexEx(ex)
    ensures EmitVertexEx(ex).ok
    ensures DecodeVertexEx(VersionOf(ex), EmitVertexEx(ex).bytes + rest) == Decoded(ex, rest)
  {
    if ex.VertexEx1? {
      BonesAndWeightsReadBack(ex, rest);
    } else {
      ExtraVertexExRoundTrip(ex, rest);
    }
  }

  /** The round trip of the sub-versions 2 and 3, which end in their extra value. */
  lemma ExtraVertexExRoundTrip(ex: VertexEx, rest: seq<uint8>)
    requires ValidVertexEx(ex) && !ex.VertexEx1?
    ensures EmitVertexEx(ex).ok
    ensures DecodeVertexEx(VersionOf(ex), EmitVertexEx(ex).bytes + rest) == Decoded(ex, rest)
  {
    var ids := EmitArray(SByte, 3, ex.boneIds).Then(EmitArray(Byte, 3, ex.weights));
    var extra := EmitScalar(DWord, ex.extra);
    ScalarRoundTrip(DWord, ex.extra, rest);
    BonesAndWeightsReadBack(ex, extra.bytes + rest);
    Glue(ids, extra, rest);
  }

  /** The bone ids and weights every extra vertex record starts with read back, leaving what follows them. */
  lemma BonesAndWeightsReadBack(ex: VertexEx, after: seq<uint8>)
    requires ValidVertexEx(ex)
    ensures var ws := EmitArray(Byte, 3, ex.weights);
      var ids := EmitArray(SByte, 3, ex.boneIds).Then(ws);
      ids.ok && DecodeArray(SByte, 3, ids.bytes + after) == Decoded(ex.boneIds, ws.bytes + after) &&
      DecodeArray(Byte, 3, ws.bytes + after) == Decoded(ex.weights, after)
  {
    var ws := EmitArray(Byte, 3, ex.weights);
    ArrayReadsBack(Byte, ex.weights, after);
    ArrayReadsBack(SByte, ex.boneIds, ws.bytes + after);
    Glue(EmitArray(SByte, 3, ex.boneIds), ws, after);
  }

  /** Reading back a valid extra joint record gives it unchanged. */
  lemma JointExRoundTrip(ex: JointEx, rest: seq<uint8>)
    requires ValidJointEx(ex)
    ensures EmitJointEx(ex).ok
    ensures DecodeJointEx(EmitJointEx(ex).bytes + rest) == Decoded(ex, rest)
  {
    ArrayReadsBack(Float, ex.color, rest);
  }

  /** Reading back valid extra model data gives it unchanged. */
  lemma ModelExRoundTrip(ex: ModelEx, rest: seq<uint8>)
    requires ValidModelEx(ex)
    ensures EmitModelEx(ex).ok
    ensures DecodeModelEx(EmitModelEx(ex).bytes + rest) == Decoded(ex, rest)
  {
    var e3 := EmitScalar(Float, ex.alphaRef);
    var e2 := EmitScalar(DWord, ex.transparencyMode).Then(e3);
    ScalarRoundTrip(Float, ex.alphaRef, rest);
    ScalarRoundTrip(DWord, ex.transparencyMode, e3.bytes + rest);
    Glue(EmitScalar(DWord, ex.transparencyMode), e3, rest);
    ScalarRoundTrip(Float, ex.jointSize, e2.bytes + rest);
    Glue(EmitScalar(Float, ex.jointSize), e2, rest);
  }
}
