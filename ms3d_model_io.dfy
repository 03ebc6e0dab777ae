/**
 * The `Ms3dModel` object: its `read` and `write` methods, each proved to do
 * what the pure description of the file layout says.
 */
module Ms3dModelIo {
  import opened Wrappers
  import opened Ms3dIo
  import opened Ms3dRecords
  import opened Ms3dRecordIo
  import opened Ms3dModelFormat
  import opened Ms3dModelProofs
  import opened Ms3dListIo
  import opened Ms3dModelWrite

  // ----------------------------------------------------- optional sections

  /** Optional section `k`, counted from 1. */
  function Section(k: nat, t: Tail): Tail
  {
    match k
    case 1 => JointsSection(t)
    case 2 => GroupCommentsSection(t)
    case 3 => MaterialCommentsSection(t)
    case 4 => JointCommentsSection(t)
    case 5 => ModelCommentSection(t)
    case 6 => VertexExtraSection(t)
    case 7 => JointExtraSection(t)
    case 8 => ModelExtraSection(t)
    case _ => t
  }

  /** The optional sections after the `k`-th. */
  function After(k: nat, t: Tail): Tail
    decreases SECTIONS - k
  {
    if k >= SECTIONS then t else After(k + 1, Section(k + 1, t))
  }

  lemma OptionalIsAfter(m: ModelData, s: seq<uint8>)
    ensures DecodeOptional(m, s) == After(0, Tail(m, 0, Some(s)))
  {
  }

  /** Once a section is cut short, the sections after it change nothing. */
  lemma {:induction false} AfterStopped(k: nat, t: Tail)
    requires t.rest.None?
    ensures After(k, t) == t
    decreases SECTIONS - k
  {
    if k < SECTIONS {
      JointsSteps(t); GroupCommentsSteps(t); MaterialCommentsSteps(t); JointCommentsSteps(t);
      ModelCommentSteps(t); VertexExtraSteps(t); JointExtraSteps(t); ModelExtraSteps(t);
      assert Section(k + 1, t) == t;
      AfterStopped(k + 1, t);
    }
  }

  /** Where a section method leaves the read: complete with the input left, or cut short. */
  function Reading(m: ModelData, completed: nat, ok: bool, rest: seq<uint8>): Tail
  {
    if ok then Tail(m, completed + 1, Some(rest)) else Tail(m, completed, None)
  }

  // ------------------------------------------------------ optional loops

  /** One turn of a comment loop: the indexed comment read, attached to the comments so far. */
  method ReadCommentAfter(f: Ms3dReader, ghost total: Partial<seq<CommentEx>>, ghost left: nat, ghost cs: seq<CommentEx>)
    returns (c: Option<CommentEx>)
    requires f.Valid() && left > 0 && total == AttachCommentsFrom(cs, left, f.Rest())
    modifies f
    ensures f.Valid()
    ensures c.None? ==> total == Partial(cs, None)
    ensures c.Some? ==> total == AttachCommentsFrom(Attach(cs, c.value), left - 1, f.Rest())
  {
    ghost var before := f.Rest();
    c := ReadCommentEx(f);
    AttachCommentsNext(cs, left, before);
  }

  /** One turn of the extra vertex loop: the record read, stored in vertex `i`. */
  method ReadVertexExAfter(f: Ms3dReader, ghost total: Partial<seq<Vertex>>, version: int,
                           ghost vertices: seq<Vertex>, ghost i: nat)
    returns (ex: Option<VertexEx>)
    requires f.Valid() && 1 <= version <= 3 && i < |vertices|
    requires total == AttachVertexExFrom(vertices, version, i, f.Rest())
    modifies f
    ensures f.Valid()
    ensures ex.None? ==> total == Partial(vertices, None)
    ensures ex.Some? ==> total == AttachVertexExFrom(vertices[i := vertices[i].(ex := ex.value)], version, i + 1, f.Rest())
  {
    ex := ReadVertexEx(f, version);
  }

  /** One turn of the extra joint loop: the record read, stored in joint `i`. */
  method ReadJointExAfter(f: Ms3dReader, ghost total: Partial<seq<Joint>>, ghost joints: seq<Joint>, ghost i: nat)
    returns (ex: Option<JointEx>)
    requires f.Valid() && i < |joints| && total == AttachJointExFrom(joints, i, f.Rest())
    modifies f
    ensures f.Valid()
    ensures ex.None? ==> total == Partial(joints, None)
    ensures ex.Some? ==> total == AttachJointExFrom(joints[i := joints[i].(ex := ex.value)], i + 1, f.Rest())
  {
    ex := ReadJointEx(f);
  }

  /** Storing a comment in the group it names attaches it to the group comments. */
  lemma GroupCommentStored(groups: seq<Group>, c: CommentEx)
    requires 0 <= c.index < |groups|
    ensures GroupCommentList(groups[c.index := groups[c.index].(comment := c)]) == Attach(GroupCommentList(groups), c)
  {
  }

  /** Storing a comment in the material it names attaches it to the material comments. */
  lemma MaterialCommentStored(materials: seq<Material>, c: CommentEx)
    requires 0 <= c.index < |materials|
    ensures MaterialCommentList(materials[c.index := materials[c.index].(comment := c)])
            == Attach(MaterialCommentList(materials), c)
  {
  }

  /** Storing a comment in the joint it names attaches it to the joint comments. */
  lemma JointCommentStored(joints: seq<Joint>, c: CommentEx)
    requires 0 <= c.index < |joints|
    ensures JointCommentList(joints[c.index := joints[c.index].(comment := c)]) == Attach(JointCommentList(joints), c)
  {
  }

  /** `Ms3dModel.read`: the group comment loop; a comment whose index names no group is dropped. */
  method AttachGroupComments(f: Ms3dReader, owners: seq<Group>, count: nat) returns (r: seq<Group>, ok: bool)
    requires f.Valid()
    modifies f
    ensures f.Valid()
    ensures AttachCommentsFrom(GroupCommentList(owners), count, old(f.Rest())) == Partial(GroupCommentList(r), if ok then Some(f.Rest()) else None)
    ensures r == WithGroupComments(owners, GroupCommentList(r))
  {
    ghost var total := AttachCommentsFrom(GroupCommentList(owners), count, f.Rest());
    ghost var left := count;
    r := owners;
    for i := 0 to count
      invariant f.Valid() && left == count - i
      invariant total == AttachCommentsFrom(GroupCommentList(r), left, f.Rest())
      invariant |r| == |owners| && forall k :: 0 <= k < |r| ==> r[k] == owners[k].(comment := r[k].comment)
    {
      var c := ReadCommentAfter(f, total, left, GroupCommentList(r));
      if c.None? {
        return r, false;
      }
      var index := c.value.index;
      if 0 <= index < |r| {
        GroupCommentStored(r, c.value);
        r := r[index := r[index].(comment := c.value)];
      }
      left := left - 1;
    }
    ok := true;
  }

  /** `Ms3dModel.read`: the material comment loop; a comment whose index names no material is dropped. */
  method AttachMaterialComments(f: Ms3dReader, owners: seq<Material>, count: nat) returns (r: seq<Material>, ok: bool)
    requires f.Valid()
    modifies f
    ensures f.Valid()
    ensures AttachCommentsFrom(MaterialCommentList(owners), count, old(f.Rest())) == Partial(MaterialCommentList(r), if ok then Some(f.Rest()) else None)
    ensures r == WithMaterialComments(owners, MaterialCommentList(r))
  {
    ghost var total := AttachCommentsFrom(MaterialCommentList(owners), count, f.Rest());
    ghost var left := count;
    r := owners;
    for i := 0 to count
      invariant f.Valid() && left == count - i
      invariant total == AttachCommentsFrom(MaterialCommentList(r), left, f.Rest())
      invariant |r| == |owners| && forall k :: 0 <= k < |r| ==> r[k] == owners[k].(comment := r[k].comment)
    {
      var c := ReadCommentAfter(f, total, left, MaterialCommentList(r));
      if c.None? {
        return r, false;
      }
      var index := c.value.index;
      if 0 <= index < |r| {
        MaterialCommentStored(r, c.value);
        r := r[index := r[index].(comment := c.value)];
      }
      left := left - 1;
    }
    ok := true;
  }

  /** `Ms3dModel.read`: the joint comment loop; a comment whose index names no joint is dropped. */
  method AttachJointComments(f: Ms3dReader, owners: seq<Joint>, count: nat) returns (r: seq<Joint>, ok: bool)
    requires f.Valid()
    modifies f
    ensures f.Valid()
    ensures AttachCommentsFrom(JointCommentList(owners), count, old(f.Rest())) == Partial(JointCommentList(r), if ok then Some(f.Rest()) else None)
    ensures r == WithJointComments(owners, JointCommentList(r))
  {
    ghost var total := AttachCommentsFrom(JointCommentList(owners), count, f.Rest());
    ghost var left := count;
    r := owners;
    for i := 0 to count
      invariant f.Valid() && left == count - i
      invariant total == AttachCommentsFrom(JointCommentList(r), left, f.Rest())
      invariant |r| == |owners| && forall k :: 0 <= k < |r| ==> r[k] == owners[k].(comment := r[k].comment)
    {
      var c := ReadCommentAfter(f, total, left, JointCommentList(r));
      if c.None? {
        return r, false;
      }
      var index := c.value.index;
      if 0 <= index < |r| {
        JointCommentStored(r, c.value);
        r := r[index := r[index].(comment := c.value)];
      }
      left := left - 1;
    }
    ok := true;
  }

  // ---------------------------------------------------------------- model

  /** An `Ms3dModel` object. */
  class Ms3dModel {
    var name: string
    var header: Header
    var vertices: seq<Vertex>
    var triangles: seq<Triangle>
    var groups: seq<Group>
    var materials: seq<Material>
    var animationFps: int
    var currentTime: int
    var totalFrames: int
    var joints: seq<Joint>
    var svComments: int
    var svVertexExtra: int
    var svJointExtra: int
    var svModelExtra: int
    var comment: Option<Comment>
    var modelEx: ModelEx

    /** The state of the object as a value. */
    function Value(): ModelData
      reads this
    {
      ModelData(name, header, vertices, triangles, groups, materials, animationFps, currentTime, totalFrames,
                joints, svComments, svVertexExtra, svJointExtra, svModelExtra, comment, modelEx)
    }

    /** `Ms3dModel.__init__`. */
    constructor(defaultName: string)
      ensures Value() == NewModel(defaultName)
    {
      name := defaultName;
      header := DefaultHeader;
      vertices := [];
      triangles := [];
      groups := [];
      materials := [];
      animationFps := DEFAULT_MODEL_ANIMATION_FPS;
      currentTime := FLOAT_ZERO;
      totalFrames := 0;
      joints := [];
      svComments := DEFAULT_MODEL_SUB_VERSION_COMMENTS;
      svVertexExtra := DEFAULT_MODEL_SUB_VERSION_VERTEX_EXTRA;
      svJointExtra := DEFAULT_MODEL_SUB_VERSION_JOINT_EXTRA;
      svModelExtra := DEFAULT_MODEL_SUB_VERSION_MODEL_EXTRA;
      comment := None;
      modelEx := DefaultModelEx;
    }

    /** The header block. */
    method ReadHeaderPart(f: Ms3dReader) returns (ok: bool)
      requires f.Valid()
      modifies this, f
      ensures f.Valid()
      ensures ok <==> DecodeHeaderPart(old(Value()), old(f.Rest())).Decoded?
      ensures ok ==> DecodeHeaderPart(old(Value()), old(f.Rest())) == Decoded(Value(), f.Rest())
    {
      var h := ReadHeader(f);
      if h.None? {
        return false;
      }
      header := h.value;
      ok := true;
    }

    /** The vertex block. */
    method ReadVerticesPart(f: Ms3dReader) returns (ok: bool)
      requires f.Valid()
      modifies this, f
      ensures f.Valid()
      ensures ok <==> DecodeVerticesPart(old(Value()), old(f.Rest())).Decoded?
      ensures ok ==> DecodeVerticesPart(old(Value()), old(f.Rest())) == Decoded(Value(), f.Rest())
    {
      var n := f.ReadScalar(Word);
      if n.None? {
        return false;
      }
      var xs := ReadVertices(f, n.value);
      if xs.None? {
        return false;
      }
      vertices := xs.value;
      ok := true;
    }

    /** The triangle block. */
    method ReadTrianglesPart(f: Ms3dReader) returns (ok: bool)
      requires f.Valid()
      modifies this, f
      ensures f.Valid()
      ensures ok <==> DecodeTrianglesPart(old(Value()), old(f.Rest())).Decoded?
      ensures ok ==> DecodeTrianglesPart(old(Value()), old(f.Rest())) == Decoded(Value(), f.Rest())
    {
      var n := f.ReadScalar(Word);
      if n.None? {
        return false;
      }
      var xs := ReadTriangles(f, n.value);
      if xs.None? {
        return false;
      }
      triangles := xs.value;
      ok := true;
    }

    /** The group block. */
    method ReadGroupsPart(f: Ms3dReader) returns (ok: bool)
      requires f.Valid()
      modifies this, f
      ensures f.Valid()
      ensures ok <==> DecodeGroupsPart(old(Value()), old(f.Rest())).Decoded?
      ensures ok ==> DecodeGroupsPart(old(Value()), old(f.Rest())) == Decoded(Value(), f.Rest())
    {
      var n := f.ReadScalar(Word);
      if n.None? {
        return false;
      }
      var xs := ReadGroups(f, n.value);
      if xs.None? {
        return false;
      }
      groups := xs.value;
      ok := true;
    }

    /** The material block. */
    method ReadMaterialsPart(f: Ms3dReader) returns (ok: bool)
      requires f.Valid()
      modifies this, f
      ensures f.Valid()
      ensures ok <==> DecodeMaterialsPart(old(Value()), old(f.Rest())).Decoded?
      ensures ok ==> DecodeMaterialsPart(old(Value()), old(f.Rest())) == Decoded(Value(), f.Rest())
    {
      var n := f.ReadScalar(Word);
      if n.None? {
        return false;
      }
      var xs := ReadMaterials(f, n.value);
      if xs.None? {
        return false;
      }
      materials := xs.value;
      ok := true;
    }

    /** The animation settings. */
    method ReadSettingsPart(f: Ms3dReader) returns (ok: bool)
      requires f.Valid()
      modifies this, f
      ensures f.Valid()
      ensures ok <==> DecodeSettingsPart(old(Value()), old(f.Rest())).Decoded?
      ensures ok ==> DecodeSettingsPart(old(Value()), old(f.Rest())) == Decoded(Value(), f.Rest())
    {
      var fps := f.ReadScalar(Float);
      if fps.None? {
        return false;
      }
      animationFps := fps.value;
      var time := f.ReadScalar(Float);
      if time.None? {
        return false;
      }
      currentTime := time.value;
      var frames := f.ReadScalar(DWord);
      if frames.None? {
        return false;
      }
      totalFrames := frames.value;
      ok := true;
    }

    /** `Ms3dModel.read` up to the frame count; `false` where the source lets the error escape. */
    method ReadRequired(f: Ms3dReader) returns (ok: bool)
      requires f.Valid()
      modifies this, f
      ensures f.Valid()
      ensures ok <==> DecodeRequired(old(Value()), old(f.Rest())).Decoded?
      ensures ok ==> DecodeRequired(old(Value()), old(f.Rest())) == Decoded(Value(), f.Rest())
    {
      ok := ReadHeaderPart(f);
      if !ok {
        return;
      }
      ok := ReadVerticesPart(f);
      if !ok {
        return;
      }
      ok := ReadTrianglesPart(f);
      if !ok {
        return;
      }
      ok := ReadGroupsPart(f);
      if !ok {
        return;
      }
      ok := ReadMaterialsPart(f);
      if !ok {
        return;
      }
      ok := ReadSettingsPart(f);
    }

    /** `Ms3dModel.read`: the extra vertex loop, which stops at the first vertex for an unknown sub-version. */
    method AttachVertexExtras(f: Ms3dReader) returns (ok: bool)
      requires f.Valid()
      modifies this, f
      ensures f.Valid()
      ensures AttachVertexExFrom(old(vertices), svVertexExtra, 0, old(f.Rest()))
              == Partial(vertices, if ok then Some(f.Rest()) else None)
      ensures Value() == old(Value()).(vertices := vertices)
    {
      ghost var total := AttachVertexExFrom(vertices, svVertexExtra, 0, f.Rest());
      for i := 0 to |vertices|
        invariant f.Valid()
        invariant total == AttachVertexExFrom(vertices, svVertexExtra, i, f.Rest())
        invariant Value() == old(Value()).(vertices := vertices)
      {
        if !(1 <= svVertexExtra <= 3) {
          return false;
        }
        var ex := ReadVertexExAfter(f, total, svVertexExtra, vertices, i);
        if ex.None? {
          return false;
        }
        vertices := vertices[i := vertices[i].(ex := ex.value)];
      }
      ok := true;
    }

    /** `Ms3dModel.read`: the extra joint loop. */
    method AttachJointExtras(f: Ms3dReader) returns (ok: bool)
      requires f.Valid()
      modifies this, f
      ensures f.Valid()
      ensures AttachJointExFrom(old(joints), 0, old(f.Rest())) == Partial(joints, if ok then Some(f.Rest()) else None)
      ensures Value() == old(Value()).(joints := joints)
    {
      ghost var total := AttachJointExFrom(joints, 0, f.Rest());
      for i := 0 to |joints|
        invariant f.Valid()
        invariant total == AttachJointExFrom(joints, i, f.Rest())
        invariant Value() == old(Value()).(joints := joints)
      {
        var ex := ReadJointExAfter(f, total, joints, i);
        if ex.None? {
          return false;
        }
        joints := joints[i := joints[i].(ex := ex.value)];
      }
      ok := true;
    }

    /** Section 1: the joints, kept only when the whole list is read. */
    method ReadJointsSection(f: Ms3dReader, ghost completed: nat) returns (ok: bool)
      requires f.Valid()
      modifies this, f
      ensures f.Valid()
      ensures JointsSection(Tail(old(Value()), completed, Some(old(f.Rest())))) == Reading(Value(), completed, ok, f.Rest())
    {
      if f.AtEof() {
        return false;
      }
      var n := f.ReadScalar(Word);
      if n.None? {
        return false;
      }
      var xs := ReadJoints(f, n.value);
      if xs.None? {
        return false;
      }
      joints := xs.value;
      ok := true;
    }

    /** Section 2: the comment sub-version and the group comments. */
    method ReadGroupComments(f: Ms3dReader, ghost completed: nat) returns (ok: bool)
      requires f.Valid()
      modifies this, f
      ensures f.Valid()
      ensures GroupCommentsSection(Tail(old(Value()), completed, Some(old(f.Rest())))) == Reading(Value(), completed, ok, f.Rest())
    {
      if f.AtEof() {
        return false;
      }
      var sv := f.ReadScalar(DWord);
      if sv.None? {
        return false;
      }
      svComments := sv.value;
      var n := f.ReadScalar(DWord);
      if n.None? {
        return false;
      }
      groups, ok := AttachGroupComments(f, groups, n.value);
    }

    /** Section 3: the material comments. */
    method ReadMaterialComments(f: Ms3dReader, ghost completed: nat) returns (ok: bool)
      requires f.Valid()
      modifies this, f
      ensures f.Valid()
      ensures MaterialCommentsSection(Tail(old(Value()), completed, Some(old(f.Rest())))) == Reading(Value(), completed, ok, f.Rest())
    {
      var n := f.ReadScalar(DWord);
      if n.None? {
        return false;
      }
      materials, ok := AttachMaterialComments(f, materials, n.value);
    }

    /** Section 4: the joint comments. */
    method ReadJointComments(f: Ms3dReader, ghost completed: nat) returns (ok: bool)
      requires f.Valid()
      modifies this, f
      ensures f.Valid()
      ensures JointCommentsSection(Tail(old(Value()), completed, Some(old(f.Rest())))) == Reading(Value(), completed, ok, f.Rest())
    {
      var n := f.ReadScalar(DWord);
      if n.None? {
        return false;
      }
      joints, ok := AttachJointComments(f, joints, n.value);
    }

    /** Section 5: the model comment, read when the flag before it is not zero. */
    method ReadModelComment(f: Ms3dReader, ghost completed: nat) returns (ok: bool)
      requires f.Valid()
      modifies this, f
      ensures f.Valid()
      ensures ModelCommentSection(Tail(old(Value()), completed, Some(old(f.Rest())))) == Reading(Value(), completed, ok, f.Rest())
    {
      var has := f.ReadScalar(DWord);
      if has.None? {
        return false;
      }
      if has.value == 0 {
        comment := None;
        return true;
      }
      var c := ReadComment(f);
      if c.None? {
        return false;
      }
      comment := Some(c.value);
      ok := true;
    }

    /** Section 6: the extra vertex sub-version and the extra vertex records. */
    method ReadVertexExtra(f: Ms3dReader, ghost completed: nat) returns (ok: bool)
      requires f.Valid()
      modifies this, f
      ensures f.Valid()
      ensures VertexExtraSection(Tail(old(Value()), completed, Some(old(f.Rest())))) == Reading(Value(), completed, ok, f.Rest())
    {
      if f.AtEof() {
        return false;
      }
      var sv := f.ReadScalar(DWord);
      if sv.None? {
        return false;
      }
      svVertexExtra := sv.value;
      if sv.value > 0 {
        ok := AttachVertexExtras(f);
      } else {
        ok := true;
      }
    }

    /** Section 7: the extra joint sub-version and the extra joint records. */
    method ReadJointExtra(f: Ms3dReader, ghost completed: nat) returns (ok: bool)
      requires f.Valid()
      modifies this, f
      ensures f.Valid()
      ensures JointExtraSection(Tail(old(Value()), completed, Some(old(f.Rest())))) == Reading(Value(), completed, ok, f.Rest())
    {
      if f.AtEof() {
        return false;
      }
      var sv := f.ReadScalar(DWord);
      if sv.None? {
        return false;
      }
      svJointExtra := sv.value;
      if sv.value > 0 {
        ok := AttachJointExtras(f);
      } else {
        ok := true;
      }
    }

    /** Section 8: the extra model sub-version and the extra model data. */
    method ReadModelExtra(f: Ms3dReader, ghost completed: nat) returns (ok: bool)
      requires f.Valid()
      modifies this, f
      ensures f.Valid()
      ensures ModelExtraSection(Tail(old(Value()), completed, Some(old(f.Rest())))) == Reading(Value(), completed, ok, f.Rest())
    {
      if f.AtEof() {
        return false;
      }
      var sv := f.ReadScalar(DWord);
      if sv.None? {
        return false;
      }
      svModelExtra := sv.value;
      if sv.value > 0 {
        var ex := ReadModelEx(f);
        if ex.None? {
          return false;
        }
        modelEx := ex.value;
      }
      ok := true;
    }

    /**
     * The optional part of `Ms3dModel.read`: the sections in order until one
     * is cut short; `completed` counts the sections in `_progress`.
     */
    method ReadOptional(f: Ms3dReader) returns (completed: nat)
      requires f.Valid()
      modifies this, f
      ensures f.Valid()
      ensures DecodeOptional(old(Value()), old(f.Rest()))
              == Tail(Value(), completed, if completed == SECTIONS then Some(f.Rest()) else None)
    {
      ghost var t := Tail(Value(), 0, Some(f.Rest()));
      OptionalIsAfter(Value(), f.Rest());
      var ok: bool;
      ok := ReadJointsSection(f, 0);
      t := Reading(Value(), 0, ok, f.Rest());
      if !ok {
        AfterStopped(1, t);
        return 0;
      }
      ok := ReadGroupComments(f, 1);
      t := Reading(Value(), 1, ok, f.Rest());
      if !ok {
        AfterStopped(2, t);
        return 1;
      }
      ok := ReadMaterialComments(f, 2);
      t := Reading(Value(), 2, ok, f.Rest());
      if !ok {
        AfterStopped(3, t);
        return 2;
      }
      ok := ReadJointComments(f, 3);
      t := Reading(Value(), 3, ok, f.Rest());
      if !ok {
        AfterStopped(4, t);
        return 3;
      }
      ok := ReadModelComment(f, 4);
      t := Reading(Value(), 4, ok, f.Rest());
      if !ok {
        AfterStopped(5, t);
        return 4;
      }
      ok := ReadVertexExtra(f, 5);
      t := Reading(Value(), 5, ok, f.Rest());
      if !ok {
        AfterStopped(6, t);
        return 5;
      }
      ok := ReadJointExtra(f, 6);
      t := Reading(Value(), 6, ok, f.Rest());
      if !ok {
        AfterStopped(7, t);
        return 6;
      }
      ok := ReadModelExtra(f, 7);
      t := Reading(Value(), 7, ok, f.Rest());
      if !ok {
        AfterStopped(8, t);
        return 7;
      }
      completed := SECTIONS;
    }

    /** The resets after the optional part, for each section not in `_progress`. */
    method Reset(completed: nat)
      modifies this
      ensures Value() == Ms3dModelFormat.Finish(Tail(old(Value()), completed, None))
    {
      ResetComments(completed);
      ResetExtras(completed);
      ResetModelExtra(completed);
    }

    /** The joints and the comments, when their sections were not all read. */
    method ResetComments(completed: nat)
      modifies this
      ensures Value() == old(Value()).(joints := if completed < 1 then [] else old(joints),
                                       svComments := if completed < 2 then 0 else old(svComments),
                                       comment := if completed < 5 then None else old(comment))
    {
      joints := if completed < 1 then [] else joints;
      svComments := if completed < 2 then 0 else svComments;
      comment := if completed < 5 then None else comment;
    }

    /** The vertex and joint extra sub-versions, when their sections were not read. */
    method ResetExtras(completed: nat)
      modifies this
      ensures Value() == old(Value()).(svVertexExtra := if completed < 6 then 0 else old(svVertexExtra),
                                       svJointExtra := if completed < 7 then 0 else old(svJointExtra))
    {
      svVertexExtra := if completed < 6 then 0 else svVertexExtra;
      svJointExtra := if completed < 7 then 0 else svJointExtra;
    }

    /** The model extra, when its section was not read. */
    method ResetModelExtra(completed: nat)
      modifies this
      ensures Value() == old(Value()).(svModelExtra := if completed < 8 then 0 else old(svModelExtra),
                                       modelEx := if completed < 8 then DefaultModelEx else old(modelEx))
    {
      svModelExtra := if completed < 8 then 0 else svModelExtra;
      modelEx := if completed < 8 then DefaultModelEx else modelEx;
    }

    /** `Ms3dModel.read`: `false` where an error in the required part escapes. */
    method Read(f: Ms3dReader) returns (ok: bool)
      requires f.Valid()
      modifies this, f
      ensures f.Valid()
      ensures ok <==> ReadModel(old(Value()), old(f.Rest())).Some?
      ensures ok ==> ReadModel(old(Value()), old(f.Rest())) == Some(Value())
    {
      ok := ReadRequired(f);
      if !ok {
        return;
      }
      var completed := ReadOptional(f);
      Reset(completed);
    }

    /** `Ms3dModel.is_valid`: each count over its limit makes the model invalid. */
    method IsValid() returns (valid: bool)
      ensures valid <==> WithinLimits(Value())
    {
      valid := true;
      if |vertices| > MAX_VERTICES {
        valid := false;
      }
      if |triangles| > MAX_TRIANGLES {
        valid := false;
      }
      if |groups| > MAX_GROUPS {
        valid := false;
      }
      if |materials| > MAX_MATERIALS {
        valid := false;
      }
      if |joints| > MAX_JOINTS {
        valid := false;
      }
    }

    /**
     * `Ms3dModel.write`: a failure in the required part is an error; one in
     * the optional part is caught, and what was written before it stays.
     */
    method Write(f: Ms3dWriter) returns (ok: bool)
      modifies f
      ensures f.written == old(f.written) + EmitModel(Value()).bytes
      ensures ok == EmitModel(Value()).ok
    {
      var m := Value();
      ok := WriteRequired(f, m);
      if !ok {
        return;
      }
      var _ := WriteOptional(f, m);
      AppendAssociative(old(f.written), EmitRequired(m).bytes, EmitOptional(m).bytes);
    }
  }
}
