/**
 * The whole MilkShape 3D file as `Ms3dModel.read` and `Ms3dModel.write` lay
 * it out: a required part (header, vertices, triangles, groups, materials
 * and the animation settings) whose truncation is fatal, then an optional
 * part in eight sections (joints, group / material / joint comments, the
 * model comment, extra vertex / joint / model data).  Reading stops at the
 * first optional section that is cut short, and afterwards resets what
 * the unfinished sections would have set.  Writing stops at the first
 * optional value it cannot write, and that is not an error.
 */
module Ms3dModelFormat {
  import opened Wrappers
  import opened Ms3dIo
  import opened Ms3dRecords

  const DEFAULT_MODEL_ANIMATION_FPS := FLOAT_25
  const DEFAULT_MODEL_SUB_VERSION_COMMENTS := 1
  const DEFAULT_MODEL_SUB_VERSION_VERTEX_EXTRA := 2
  const DEFAULT_MODEL_SUB_VERSION_JOINT_EXTRA := 1
  const DEFAULT_MODEL_SUB_VERSION_MODEL_EXTRA := 1

  /** The number of optional sections. */
  const SECTIONS := 8

  /** The state of an `Ms3dModel` object. */
  datatype ModelData = ModelData(
    name: string,
    header: Header,
    vertices: seq<Vertex>,
    triangles: seq<Triangle>,
    groups: seq<Group>,
    materials: seq<Material>,
    animationFps: int,
    currentTime: int,
    totalFrames: int,
    joints: seq<Joint>,
    svComments: int,
    svVertexExtra: int,
    svJointExtra: int,
    svModelExtra: int,
    comment: Option<Comment>,
    modelEx: ModelEx)

  /** `Ms3dModel.__init__`: empty lists, default header, settings and extra model data, no model comment. */
  function NewModel(defaultName: string): (m: ModelData)
    ensures m.vertices == [] && m.triangles == [] && m.groups == [] && m.materials == [] && m.joints == []
    ensures m.name == defaultName && m.comment.None? && m.modelEx == DefaultModelEx
  {
    ModelData(defaultName, DefaultHeader, [], [], [], [], DEFAULT_MODEL_ANIMATION_FPS, FLOAT_ZERO, 0, [],
              DEFAULT_MODEL_SUB_VERSION_COMMENTS, DEFAULT_MODEL_SUB_VERSION_VERTEX_EXTRA,
              DEFAULT_MODEL_SUB_VERSION_JOINT_EXTRA, DEFAULT_MODEL_SUB_VERSION_MODEL_EXTRA,
              None, DefaultModelEx)
  }

  // --------------------------------------------------------- derived values

  /** An owner counts as commented when its comment has text. */
  predicate HasText(c: CommentEx)
  {
    c.comment != []
  }

  function GroupCommentList(groups: seq<Group>): (cs: seq<CommentEx>)
    ensures |cs| == |groups| && forall i :: 0 <= i < |groups| ==> cs[i] == groups[i].comment
  {
    seq(|groups|, i requires 0 <= i < |groups| => groups[i].comment)
  }

  function MaterialCommentList(materials: seq<Material>): (cs: seq<CommentEx>)
    ensures |cs| == |materials| && forall i :: 0 <= i < |materials| ==> cs[i] == materials[i].comment
  {
    seq(|materials|, i requires 0 <= i < |materials| => materials[i].comment)
  }

  function JointCommentList(joints: seq<Joint>): (cs: seq<CommentEx>)
    ensures |cs| == |joints| && forall i :: 0 <= i < |joints| ==> cs[i] == joints[i].comment
  {
    seq(|joints|, i requires 0 <= i < |joints| => joints[i].comment)
  }

  function WithGroupComments(groups: seq<Group>, cs: seq<CommentEx>): (r: seq<Group>)
    requires |cs| == |groups|
    ensures |r| == |groups| && forall i :: 0 <= i < |r| ==> r[i] == groups[i].(comment := cs[i])
  {
    seq(|groups|, i requires 0 <= i < |groups| => groups[i].(comment := cs[i]))
  }

  function WithMaterialComments(materials: seq<Material>, cs: seq<CommentEx>): (r: seq<Material>)
    requires |cs| == |materials|
    ensures |r| == |materials| && forall i :: 0 <= i < |r| ==> r[i] == materials[i].(comment := cs[i])
  {
    seq(|materials|, i requires 0 <= i < |materials| => materials[i].(comment := cs[i]))
  }

  function WithJointComments(joints: seq<Joint>, cs: seq<CommentEx>): (r: seq<Joint>)
    requires |cs| == |joints|
    ensures |r| == |joints| && forall i :: 0 <= i < |r| ==> r[i] == joints[i].(comment := cs[i])
  {
    seq(|joints|, i requires 0 <= i < |joints| => joints[i].(comment := cs[i]))
  }

  /**
   * `group_comments`, `material_comments`, `joint_comments`, corrected: the
   * comments with text, in owner order.
   */
  function Commented(cs: seq<CommentEx>): (r: seq<CommentEx>)
    ensures |r| <= |cs|
    ensures forall i :: 0 <= i < |r| ==> HasText(r[i])
  {
    if cs == [] then []
    else (if HasText(cs[0]) then [cs[0]] else []) + Commented(cs[1..])
  }

  /** `has_model_comment`. */
  function HasModelComment(m: ModelData): (r: int)
    ensures r == 1 <==> m.comment.Some? && m.comment.value.comment != []
    ensures r == 0 || r == 1
  {
    if m.comment.Some? && m.comment.value.comment != [] then 1 else 0
  }

  /** The limits `Ms3dModel.is_valid` checks the element counts against. */
  predicate WithinLimits(m: ModelData)
  {
    |m.vertices| <= MAX_VERTICES && |m.triangles| <= MAX_TRIANGLES && |m.groups| <= MAX_GROUPS &&
    |m.materials| <= MAX_MATERIALS && |m.joints| <= MAX_JOINTS
  }

  function VertexExList(vertices: seq<Vertex>): (r: seq<VertexEx>)
    ensures |r| == |vertices| && forall i :: 0 <= i < |r| ==> r[i] == vertices[i].ex
  {
    seq(|vertices|, i requires 0 <= i < |vertices| => vertices[i].ex)
  }

  function JointExList(joints: seq<Joint>): (r: seq<JointEx>)
    ensures |r| == |joints| && forall i :: 0 <= i < |r| ==> r[i] == joints[i].ex
  {
    seq(|joints|, i requires 0 <= i < |joints| => joints[i].ex)
  }

  // -------------------------------------------------------------- reading

  /** The header block of `Ms3dModel.read`. */
  function DecodeHeaderPart(m: ModelData, s: seq<uint8>): Decoded<ModelData>
  {
    var header :- DecodeHeader(s);
    Decoded(m.(header := header.value), header.rest)
  }

  /** The vertex block: the count, then that many vertices. */
  function DecodeVerticesPart(m: ModelData, s: seq<uint8>): Decoded<ModelData>
  {
    var n :- DecodeScalar(Word, s);
    var vertices :- DecodeManyFrom(DecodeVertex, n.value, n.rest, []);
    Decoded(m.(vertices := vertices.value), vertices.rest)
  }

  /** The triangle block. */
  function DecodeTrianglesPart(m: ModelData, s: seq<uint8>): Decoded<ModelData>
  {
    var n :- DecodeScalar(Word, s);
    var triangles :- DecodeManyFrom(DecodeTriangle, n.value, n.rest, []);
    Decoded(m.(triangles := triangles.value), triangles.rest)
  }

  /** The group block. */
  function DecodeGroupsPart(m: ModelData, s: seq<uint8>): Decoded<ModelData>
  {
    var n :- DecodeScalar(Word, s);
    var groups :- DecodeManyFrom(DecodeGroup, n.value, n.rest, []);
    Decoded(m.(groups := groups.value), groups.rest)
  }

  /** The material block. */
  function DecodeMaterialsPart(m: ModelData, s: seq<uint8>): Decoded<ModelData>
  {
    var n :- DecodeScalar(Word, s);
    var materials :- DecodeManyFrom(DecodeMaterial, n.value, n.rest, []);
    Decoded(m.(materials := materials.value), materials.rest)
  }

  /** The animation settings: frames per second, current time, total frames. */
  function DecodeSettingsPart(m: ModelData, s: seq<uint8>): Decoded<ModelData>
  {
    var fps :- DecodeScalar(Float, s);
    var time :- DecodeScalar(Float, fps.rest);
    var frames :- DecodeScalar(DWord, time.rest);
    Decoded(m.(animationFps := fps.value, currentTime := time.value, totalFrames := frames.value), frames.rest)
  }

  /** `Ms3dModel.read` up to the frame count: a truncation here ends the read with an error. */
  function DecodeRequired(prev: ModelData, s: seq<uint8>): Decoded<ModelData>
  {
    var m1 :- DecodeHeaderPart(prev, s);
    var m2 :- DecodeVerticesPart(m1.value, m1.rest);
    var m3 :- DecodeTrianglesPart(m2.value, m2.rest);
    var m4 :- DecodeGroupsPart(m3.value, m3.rest);
    var m5 :- DecodeMaterialsPart(m4.value, m4.rest);
    DecodeSettingsPart(m5.value, m5.rest)
  }

  /**
   * Where the optional part of a read stands: the model so far, how many
   * sections are complete (the `_progress` set, whose members are always
   * added in the same order), and the input left, `None` once a section
   * has been cut short.
   */
  datatype Tail = Tail(m: ModelData, completed: nat, rest: Option<seq<uint8>>)

  /** A loop that can be cut short: what it reached, and the input left when it finished. */
  datatype Partial<T> = Partial(value: T, rest: Option<seq<uint8>>)

  function Stop(t: Tail): Tail
  {
    t.(rest := None)
  }

  /** A section that finished, leaving `s`. */
  function Done(t: Tail, m: ModelData, s: seq<uint8>): Tail
  {
    Tail(m, t.completed + 1, Some(s))
  }

  /** A section whose last loop reached `p`: complete only when the loop finished. */
  function Reached<T>(t: Tail, m: ModelData, p: Partial<T>): Tail
  {
    if p.rest.Some? then Done(t, m, p.rest.value) else Stop(t.(m := m))
  }

  /** `raise_on_eof` before a section, or an earlier section cut short. */
  predicate AtEnd(t: Tail)
  {
    t.rest.None? || t.rest.value == []
  }

  /** An indexed comment replaces the comment of the owner it names, when there is one. */
  function Attach(cs: seq<CommentEx>, c: CommentEx): (r: seq<CommentEx>)
    ensures |r| == |cs|
    ensures forall i :: 0 <= i < |r| ==> r[i] == if i == c.index then c else cs[i]
  {
    if 0 <= c.index < |cs| then cs[c.index := c] else cs
  }

  /**
   * A comment loop: `count` indexed comments, each attached as it is read. As
   * with `DecodeManyFrom`, a turn is spelt out over two further functions so
   * that unfolding the loop twice does not yet reach the comment decoder.
   */
  function AttachCommentsFrom(cs: seq<CommentEx>, count: nat, s: seq<uint8>): (r: Partial<seq<CommentEx>>)
    ensures |r.value| == |cs|
    decreases count, 2
  {
    if count == 0 then Partial(cs, Some(s)) else AttachTurn(cs, count - 1, s)
  }

  /** A turn of the comment loop with `more` comments still to read after this one. */
  function AttachTurn(cs: seq<CommentEx>, more: nat, s: seq<uint8>): (r: Partial<seq<CommentEx>>)
    ensures |r.value| == |cs|
    decreases more + 1, 1
  {
    AttachCommentThen(cs, more, s)
  }

  /** The comment at the head of `s`, attached, then the `more` comments after it. */
  function AttachCommentThen(cs: seq<CommentEx>, more: nat, s: seq<uint8>): (r: Partial<seq<CommentEx>>)
    ensures |r.value| == |cs|
    decreases more + 1, 0
  {
    match DecodeCommentEx(s)
    case Truncated => Partial(cs, None)
    case Decoded(c, s') => AttachCommentsFrom(Attach(cs, c), more, s')
  }

  /** One turn of the comment loop: it stops at a truncated comment and otherwise attaches it and goes on. */
  lemma AttachCommentsNext(cs: seq<CommentEx>, count: nat, s: seq<uint8>)
    requires count > 0
    ensures DecodeCommentEx(s).Truncated? ==> AttachCommentsFrom(cs, count, s) == Partial(cs, None)
    ensures DecodeCommentEx(s).Decoded? ==>
      AttachCommentsFrom(cs, count, s)
      == AttachCommentsFrom(Attach(cs, DecodeCommentEx(s).value), count - 1, DecodeCommentEx(s).rest)
  {
    assert AttachCommentsFrom(cs, count, s) == AttachCommentThen(cs, count - 1, s);
  }

  /**
   * The extra-vertex loop from vertex `i` on: each vertex gets a record of
   * the sub-version's class; an unknown sub-version ends the optional part
   * at the first vertex.
   */
  function AttachVertexExFrom(vertices: seq<Vertex>, version: int, i: nat, s: seq<uint8>): (r: Partial<seq<Vertex>>)
    ensures |r.value| == |vertices|
    decreases |vertices| - i
  {
    if i >= |vertices| then Partial(vertices, Some(s))
    else if !(1 <= version <= 3) then Partial(vertices, None)
    else
      match DecodeVertexEx(version, s)
      case Truncated => Partial(vertices, None)
      case Decoded(ex, s') => AttachVertexExFrom(vertices[i := vertices[i].(ex := ex)], version, i + 1, s')
  }

  /** The extra-joint loop from joint `i` on. */
  function AttachJointExFrom(joints: seq<Joint>, i: nat, s: seq<uint8>): (r: Partial<seq<Joint>>)
    ensures |r.value| == |joints|
    decreases |joints| - i
  {
    if i >= |joints| then Partial(joints, Some(s))
    else
      match DecodeJointEx(s)
      case Truncated => Partial(joints, None)
      case Decoded(ex, s') => AttachJointExFrom(joints[i := joints[i].(ex := ex)], i + 1, s')
  }

  /** Section 1: the joints. */
  function JointsSection(t: Tail): Tail
  {
    if AtEnd(t) then Stop(t)
    else
      match DecodeScalar(Word, t.rest.value)
      case Truncated => Stop(t)
      case Decoded(n, s) =>
        match DecodeManyFrom(DecodeJoint, n, s, [])
        case Truncated => Stop(t)
        case Decoded(joints, s') => Done(t, t.m.(joints := joints), s')
  }

  /** Section 2: the comment sub-version and the group comments. */
  function GroupCommentsSection(t: Tail): Tail
  {
    if AtEnd(t) then Stop(t)
    else
      match DecodeScalar(DWord, t.rest.value)
      case Truncated => Stop(t)
      case Decoded(sv, s) =>
        var m := t.m.(svComments := sv);
        match DecodeScalar(DWord, s)
        case Truncated => Stop(t.(m := m))
        case Decoded(n, s') =>
          var p := AttachCommentsFrom(GroupCommentList(m.groups), n, s');
          Reached(t, m.(groups := WithGroupComments(m.groups, p.value)), p)
  }

  /** Section 3: the material comments. */
  function MaterialCommentsSection(t: Tail): Tail
  {
    if t.rest.None? then t
    else
      match DecodeScalar(DWord, t.rest.value)
      case Truncated => Stop(t)
      case Decoded(n, s) =>
        var p := AttachCommentsFrom(MaterialCommentList(t.m.materials), n, s);
        Reached(t, t.m.(materials := WithMaterialComments(t.m.materials, p.value)), p)
  }

  /** Section 4: the joint comments. */
  function JointCommentsSection(t: Tail): Tail
  {
    if t.rest.None? then t
    else
      match DecodeScalar(DWord, t.rest.value)
      case Truncated => Stop(t)
      case Decoded(n, s) =>
        var p := AttachCommentsFrom(JointCommentList(t.m.joints), n, s);
        Reached(t, t.m.(joints := WithJointComments(t.m.joints, p.value)), p)
  }

  /** Section 5: the model comment, present when the flag before it is not zero. */
  function ModelCommentSection(t: Tail): Tail
  {
    if t.rest.None? then t
    else
      match DecodeScalar(DWord, t.rest.value)
      case Truncated => Stop(t)
      case Decoded(has, s) =>
        if has == 0 then Done(t, t.m.(comment := None), s)
        else
          match DecodeComment(s)
          case Truncated => Stop(t)
          case Decoded(c, s') => Done(t, t.m.(comment := Some(c)), s')
  }

  /** Section 6: the extra vertex sub-version and, above 0, one extra record per vertex. */
  function VertexExtraSection(t: Tail): Tail
  {
    if AtEnd(t) then Stop(t)
    else
      match DecodeScalar(DWord, t.rest.value)
      case Truncated => Stop(t)
      case Decoded(sv, s) =>
        var m := t.m.(svVertexExtra := sv);
        if sv > 0 then
          var p := AttachVertexExFrom(m.vertices, sv, 0, s);
          Reached(t, m.(vertices := p.value), p)
        else Done(t, m, s)
  }

  /** Section 7: the extra joint sub-version and, above 0, one extra record per joint. */
  function JointExtraSection(t: Tail): Tail
  {
    if AtEnd(t) then Stop(t)
    else
      match DecodeScalar(DWord, t.rest.value)
      case Truncated => Stop(t)
      case Decoded(sv, s) =>
        var m := t.m.(svJointExtra := sv);
        if sv > 0 then
          var p := AttachJointExFrom(m.joints, 0, s);
          Reached(t, m.(joints := p.value), p)
        else Done(t, m, s)
  }

  /** Section 8: the extra model sub-version and, above 0, the extra model data. */
  function ModelExtraSection(t: Tail): Tail
  {
    if AtEnd(t) then Stop(t)
    else
      match DecodeScalar(DWord, t.rest.value)
      case Truncated => Stop(t)
      case Decoded(sv, s) =>
        var m := t.m.(svModelExtra := sv);
        if sv > 0 then
          match DecodeModelEx(s)
          case Truncated => Stop(t.(m := m))
          case Decoded(ex, s') => Done(t, m.(modelEx := ex), s')
        else Done(t, m, s)
  }

  /** The optional part, section after section, from the model the required part produced. */
  function DecodeOptional(m: ModelData, s: seq<uint8>): Tail
  {
    ModelExtraSection(JointExtraSection(VertexExtraSection(ModelCommentSection(
      JointCommentsSection(MaterialCommentsSection(GroupCommentsSection(JointsSection(Tail(m, 0, Some(s))))))))))
  }

  /** The resets after the optional part, for each section that did not complete. */
  function Finish(t: Tail): (m: ModelData)
    ensures t.completed < 1 ==> m.joints == []
    ensures t.completed < 2 ==> m.svComments == 0
    ensures t.completed < 5 ==> m.comment.None?
    ensures t.completed < 6 ==> m.svVertexExtra == 0
    ensures t.completed < 7 ==> m.svJointExtra == 0
    ensures t.completed < 8 ==> m.svModelExtra == 0 && m.modelEx == DefaultModelEx
  {
    var k := t.completed;
    t.m.(joints := if k < 1 then [] else t.m.joints,
         svComments := if k < 2 then 0 else t.m.svComments,
         comment := if k < 5 then None else t.m.comment,
         svVertexExtra := if k < 6 then 0 else t.m.svVertexExtra,
         svJointExtra := if k < 7 then 0 else t.m.svJointExtra,
         svModelExtra := if k < 8 then 0 else t.m.svModelExtra,
         modelEx := if k < 8 then DefaultModelEx else t.m.modelEx)
  }

  /** `Ms3dModel.read` on an object in state `prev`: `None` when the required part is cut short. */
  function ReadModel(prev: ModelData, s: seq<uint8>): Option<ModelData>
  {
    match DecodeRequired(prev, s)
    case Truncated => None
    case Decoded(m, rest) => Some(Finish(DecodeOptional(m, rest)))
  }

  // -------------------------------------------------------------- writing

  /** A write that raises: nothing is written and the sequence stops. */
  const Raise := Emitted([], false)

  /** The `try` around the optional part: a failure there still counts as a finished write. */
  function Recover(e: Emitted): (r: Emitted)
    ensures r.ok && r.bytes == e.bytes
  {
    Emitted(e.bytes, true)
  }

  /** `Ms3dModel.write` up to the frame count; a failure here ends the write with an error. */
  function EmitRequired(m: ModelData): Emitted
  {
    EmitHeader(m.header)
      .Then(EmitScalar(Word, |m.vertices|)
      .Then(EmitMany(EmitVertex, m.vertices)
      .Then(EmitScalar(Word, |m.triangles|)
      .Then(EmitMany(EmitTriangle, m.triangles)
      .Then(EmitScalar(Word, |m.groups|)
      .Then(EmitMany(EmitGroup, m.groups)
      .Then(EmitScalar(Word, |m.materials|)
      .Then(EmitMany(EmitMaterial, m.materials)
      .Then(EmitScalar(Float, m.animationFps)
      .Then(EmitScalar(Float, m.currentTime)
      .Then(EmitScalar(DWord, m.totalFrames))))))))))))
  }

  /** A comment section, corrected: the number of commented owners, then their comments. */
  function EmitComments(cs: seq<CommentEx>): Emitted
  {
    EmitScalar(DWord, |Commented(cs)|).Then(EmitMany(EmitCommentEx, Commented(cs)))
  }

  /** `group_comments` as written: the commented groups themselves rather than their comments. */
  function CommentedGroups(groups: seq<Group>): (r: seq<Group>)
    ensures |r| == |Commented(GroupCommentList(groups))|
    ensures forall i :: 0 <= i < |r| ==> HasText(r[i].comment)
  {
    if groups == [] then []
    else
      assert GroupCommentList(groups)[1..] == GroupCommentList(groups[1..]);
      (if HasText(groups[0].comment) then [groups[0]] else []) + CommentedGroups(groups[1..])
  }

  /**
   * The group comment section as `Ms3dModel.write` has it: the number of
   * commented groups, then each such group's own record where its comment
   * belongs.
   */
  function EmitGroupCommentsAsWritten(groups: seq<Group>): Emitted
  {
    EmitScalar(DWord, |CommentedGroups(groups)|).Then(EmitMany(EmitGroup, CommentedGroups(groups)))
  }

  /** `material_comments` as written: the commented materials themselves rather than their comments. */
  function CommentedMaterials(materials: seq<Material>): (r: seq<Material>)
    ensures |r| == |Commented(MaterialCommentList(materials))|
    ensures forall i :: 0 <= i < |r| ==> HasText(r[i].comment)
  {
    if materials == [] then []
    else
      assert MaterialCommentList(materials)[1..] == MaterialCommentList(materials[1..]);
      (if HasText(materials[0].comment) then [materials[0]] else []) + CommentedMaterials(materials[1..])
  }

  /** The material comment section as `Ms3dModel.write` has it: each commented material's own record. */
  function EmitMaterialCommentsAsWritten(materials: seq<Material>): Emitted
  {
    EmitScalar(DWord, |CommentedMaterials(materials)|).Then(EmitMany(EmitMaterial, CommentedMaterials(materials)))
  }

  /** `joint_comments` as written: the commented joints themselves rather than their comments. */
  function CommentedJoints(joints: seq<Joint>): (r: seq<Joint>)
    ensures |r| == |Commented(JointCommentList(joints))|
    ensures forall i :: 0 <= i < |r| ==> HasText(r[i].comment)
  {
    if joints == [] then []
    else
      assert JointCommentList(joints)[1..] == JointCommentList(joints[1..]);
      (if HasText(joints[0].comment) then [joints[0]] else []) + CommentedJoints(joints[1..])
  }

  /** The joint comment section as `Ms3dModel.write` has it: each commented joint's own record. */
  function EmitJointCommentsAsWritten(joints: seq<Joint>): Emitted
  {
    EmitScalar(DWord, |CommentedJoints(joints)|).Then(EmitMany(EmitJoint, CommentedJoints(joints)))
  }

  /** The model comment: its flag, then the comment when the flag is set. */
  function EmitModelComment(m: ModelData): Emitted
  {
    EmitScalar(DWord, HasModelComment(m))
      .Then(if HasModelComment(m) != 0 then EmitComment(m.comment.value) else Nothing)
  }

  /**
   * The extra vertex data: its sub-version, then each vertex's record (by
   * the record's own class) when the sub-version is 1, 2 or 3.
   */
  function EmitVertexExtra(m: ModelData): Emitted
  {
    EmitScalar(DWord, m.svVertexExtra)
      .Then(if m.svVertexExtra in {1, 2, 3} then EmitMany(EmitVertexEx, VertexExList(m.vertices)) else Nothing)
  }

  /**
   * The extra joint data: its sub-version, then each joint's record; with
   * sub-version 0 the record list is missing and indexing it raises.
   */
  function EmitJointExtra(m: ModelData): Emitted
  {
    EmitScalar(DWord, m.svJointExtra)
      .Then(if m.svJointExtra != 0 then EmitMany(EmitJointEx, JointExList(m.joints))
            else if m.joints == [] then Nothing
            else Raise)
  }

  /** The extra model data: its sub-version, then the data; with sub-version 0 the data is missing and writing it raises. */
  function EmitModelExtra(m: ModelData): Emitted
  {
    EmitScalar(DWord, m.svModelExtra)
      .Then(if m.svModelExtra != 0 then EmitModelEx(m.modelEx) else Raise)
  }

  /** The optional part, corrected to write each commented owner's comment. */
  function EmitOptional(m: ModelData): Emitted
  {
    EmitScalar(Word, |m.joints|)
      .Then(EmitMany(EmitJoint, m.joints)
      .Then(EmitScalar(DWord, m.svComments)
      .Then(EmitComments(GroupCommentList(m.groups))
      .Then(EmitComments(MaterialCommentList(m.materials))
      .Then(EmitComments(JointCommentList(m.joints))
      .Then(EmitModelComment(m)
      .Then(EmitVertexExtra(m)
      .Then(EmitJointExtra(m)
      .Then(EmitModelExtra(m))))))))))
  }

  /** The optional part as `Ms3dModel.write` has it: owner records in the three comment sections. */
  function EmitOptionalAsWritten(m: ModelData): Emitted
  {
    EmitScalar(Word, |m.joints|)
      .Then(EmitMany(EmitJoint, m.joints)
      .Then(EmitScalar(DWord, m.svComments)
      .Then(EmitGroupCommentsAsWritten(m.groups)
      .Then(EmitMaterialCommentsAsWritten(m.materials)
      .Then(EmitJointCommentsAsWritten(m.joints)
      .Then(EmitModelComment(m)
      .Then(EmitVertexExtra(m)
      .Then(EmitJointExtra(m)
      .Then(EmitModelExtra(m))))))))))
  }

  /** `Ms3dModel.write` (with the comment sections corrected). */
  function EmitModel(m: ModelData): Emitted
  {
    EmitRequired(m).Then(Recover(EmitOptional(m)))
  }
}
