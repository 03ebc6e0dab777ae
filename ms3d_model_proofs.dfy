/**
 * What reading and writing a whole MilkShape 3D file promise: a model that
 * can be written reads back as itself, whatever follows it in the file,
 * and a file holding only the required part reads back with every optional
 * value reset.
 */
module Ms3dModelProofs {
  import opened Wrappers
  import opened Ms3dIo
  import opened Ms3dRecords
  import opened Ms3dModelFormat

  // ------------------------------------------------------------- comments

  function DefaultComments(n: nat): (r: seq<CommentEx>)
    ensures |r| == n && forall i :: 0 <= i < n ==> r[i] == DefaultCommentEx
  {
    seq(n, i => DefaultCommentEx)
  }

  /**
   * Comments a comment section gives back: an owner without text holds the
   * default comment, an owner with text holds a valid comment naming it.
   */
  predicate Indexed(cs: seq<CommentEx>)
  {
    forall i :: 0 <= i < |cs| ==>
      cs[i] == DefaultCommentEx || (cs[i].index == i && HasText(cs[i]) && ValidCommentEx(cs[i]))
  }

  /** The attachments of a whole comment loop, one after another. */
  function AttachAll(cs: seq<CommentEx>, items: seq<CommentEx>): (r: seq<CommentEx>)
    ensures |r| == |cs|
    decreases |items|
  {
    if items == [] then cs else AttachAll(Attach(cs, items[0]), items[1..])
  }

  lemma {:induction false} AttachAllSnoc(cs: seq<CommentEx>, items: seq<CommentEx>, c: CommentEx)
    ensures AttachAll(cs, items + [c]) == Attach(AttachAll(cs, items), c)
    decreases |items|
  {
    if items == [] {
      assert items + [c] == [c];
      assert [c][1..] == [];
    } else {
      assert (items + [c])[1..] == items[1..] + [c];
      AttachAllSnoc(Attach(cs, items[0]), items[1..], c);
    }
  }

  lemma CommentedSnoc(cs: seq<CommentEx>, c: CommentEx)
    ensures Commented(cs + [c]) == Commented(cs) + (if HasText(c) then [c] else [])
  {
    if cs == [] {
      assert [c][1..] == [];
    } else {
      assert (cs + [c])[1..] == cs[1..] + [c];
      CommentedSnoc(cs[1..], c);
    }
  }

  /**
   * Attaching the commented entries of the first `k` comments to an owner
   * list holding only default comments restores those `k` comments.
   */
  lemma {:induction false} AttachCommentedPrefix(cs: seq<CommentEx>, k: nat)
    requires Indexed(cs) && k <= |cs|
    ensures AttachAll(DefaultComments(|cs|), Commented(cs[..k])) == cs[..k] + DefaultComments(|cs| - k)
  {
    var n := |cs|;
    if k == 0 {
      assert cs[..0] == [];
    } else {
      var c := cs[k - 1];
      assert cs[..k] == cs[..k - 1] + [c];
      CommentedSnoc(cs[..k - 1], c);
      AttachCommentedPrefix(cs, k - 1);
      PrefixStep(cs, k);
      if HasText(c) {
        AttachAllSnoc(DefaultComments(n), Commented(cs[..k - 1]), c);
      } else {
        assert Commented(cs[..k - 1]) + [] == Commented(cs[..k - 1]);
      }
    }
  }

  /** One step of `AttachCommentedPrefix`: comment `k - 1` takes its place, attached when it has text. */
  lemma PrefixStep(cs: seq<CommentEx>, k: nat)
    requires Indexed(cs) && 1 <= k <= |cs|
    ensures var before := cs[..k - 1] + DefaultComments(|cs| - (k - 1));
      (if HasText(cs[k - 1]) then Attach(before, cs[k - 1]) else before) == cs[..k] + DefaultComments(|cs| - k)
  {
    var n, c := |cs|, cs[k - 1];
    var before := cs[..k - 1] + DefaultComments(n - (k - 1));
    var after := cs[..k] + DefaultComments(n - k);
    if HasText(c) {
      assert c.index == k - 1;
      forall i | 0 <= i < n
        ensures Attach(before, c)[i] == after[i]
      {
      }
    } else {
      assert c == DefaultCommentEx;
      forall i | 0 <= i < n
        ensures before[i] == after[i]
      {
      }
    }
  }

  /** A comment loop over written comments attaches exactly those comments, in order. */
  lemma {:induction false} AttachCommentsRoundTrip(cs: seq<CommentEx>, items: seq<CommentEx>, rest: seq<uint8>)
    requires forall i :: 0 <= i < |items| ==> ValidCommentEx(items[i])
    ensures EmitMany(EmitCommentEx, items).ok
    ensures AttachCommentsFrom(cs, |items|, EmitMany(EmitCommentEx, items).bytes + rest)
            == Partial(AttachAll(cs, items), Some(rest))
    decreases |items|
  {
    if items != [] {
      AttachCommentsRoundTrip(Attach(cs, items[0]), items[1..], rest);
      AttachCommentsStep(cs, items, rest);
    } else {
      assert EmitMany(EmitCommentEx, items).bytes + rest == rest;
    }
  }

  /** One turn of `AttachCommentsRoundTrip`: the first comment reads back and is attached before the others. */
  lemma AttachCommentsStep(cs: seq<CommentEx>, items: seq<CommentEx>, rest: seq<uint8>)
    requires items != [] && ValidCommentEx(items[0]) && EmitMany(EmitCommentEx, items[1..]).ok
    requires AttachCommentsFrom(Attach(cs, items[0]), |items| - 1, EmitMany(EmitCommentEx, items[1..]).bytes + rest)
             == Partial(AttachAll(Attach(cs, items[0]), items[1..]), Some(rest))
    ensures EmitMany(EmitCommentEx, items).ok
    ensures AttachCommentsFrom(cs, |items|, EmitMany(EmitCommentEx, items).bytes + rest)
            == Partial(AttachAll(cs, items), Some(rest))
  {
    var c := items[0];
    var after := EmitMany(EmitCommentEx, items[1..]).bytes + rest;
    CommentExRoundTrip(c, after);
    CommentsLayout(items, rest);
    AttachLoopStep(cs, items, EmitMany(EmitCommentEx, items).bytes + rest, after, rest);
  }

  /** A comment loop whose next comment reads as the first item attaches it, then the others. */
  lemma AttachLoopStep(cs: seq<CommentEx>, items: seq<CommentEx>, whole: seq<uint8>, after: seq<uint8>, rest: seq<uint8>)
    requires items != [] && DecodeCommentEx(whole) == Decoded(items[0], after)
    requires AttachCommentsFrom(Attach(cs, items[0]), |items| - 1, after)
             == Partial(AttachAll(Attach(cs, items[0]), items[1..]), Some(rest))
    ensures AttachCommentsFrom(cs, |items|, whole) == Partial(AttachAll(cs, items), Some(rest))
  {
    AttachFirst(cs, items[0], |items|, whole, after);
  }

  /** The written comments are the first one's bytes followed by the others'. */
  lemma CommentsLayout(items: seq<CommentEx>, rest: seq<uint8>)
    requires items != [] && EmitCommentEx(items[0]).ok
    ensures EmitMany(EmitCommentEx, items).ok == EmitMany(EmitCommentEx, items[1..]).ok
    ensures EmitMany(EmitCommentEx, items).bytes + rest
            == EmitCommentEx(items[0]).bytes + (EmitMany(EmitCommentEx, items[1..]).bytes + rest)
  {
    Glue(EmitCommentEx(items[0]), EmitMany(EmitCommentEx, items[1..]), rest);
  }

  /** A comment loop whose next comment reads as `c` attaches `c` and goes on after it. */
  lemma AttachFirst(cs: seq<CommentEx>, c: CommentEx, count: nat, s: seq<uint8>, after: seq<uint8>)
    requires count > 0 && DecodeCommentEx(s) == Decoded(c, after)
    ensures AttachCommentsFrom(cs, count, s) == AttachCommentsFrom(Attach(cs, c), count - 1, after)
  {
    AttachCommentsNext(cs, count, s);
  }

  /** A corrected comment section reads back as the comments it was written from. */
  lemma CommentsRoundTrip(cs: seq<CommentEx>, rest: seq<uint8>)
    requires Indexed(cs) && InRange(DWord, |cs|)
    ensures EmitComments(cs).ok
    ensures DecodeScalar(DWord, EmitComments(cs).bytes + rest)
            == Decoded(|Commented(cs)|, EmitMany(EmitCommentEx, Commented(cs)).bytes + rest)
    ensures AttachCommentsFrom(DefaultComments(|cs|), |Commented(cs)|,
                               EmitMany(EmitCommentEx, Commented(cs)).bytes + rest)
            == Partial(cs, Some(rest))
  {
    var items := Commented(cs);
    forall i | 0 <= i < |items|
      ensures ValidCommentEx(items[i])
    {
      CommentedValid(cs, i);
    }
    AttachCommentsRoundTrip(DefaultComments(|cs|), items, rest);
    AttachCommentedPrefix(cs, |cs|);
    assert cs[..|cs|] == cs;
    assert cs + DefaultComments(0) == cs;
    var body := EmitMany(EmitCommentEx, items);
    ScalarRoundTrip(DWord, |items|, body.bytes + rest);
    Glue(EmitScalar(DWord, |items|), body, rest);
  }

  /** The commented entries of comments that are each default or valid are valid. */
  lemma {:induction false} CommentedValid(cs: seq<CommentEx>, i: nat)
    requires forall j :: 0 <= j < |cs| ==> cs[j] == DefaultCommentEx || ValidCommentEx(cs[j])
    requires i < |Commented(cs)|
    ensures ValidCommentEx(Commented(cs)[i])
    decreases |cs|
  {
    var head := if HasText(cs[0]) then [cs[0]] else [];
    assert Commented(cs) == head + Commented(cs[1..]);
    if i >= |head| {
      CommentedValid(cs[1..], i - |head|);
    }
  }

  // ------------------------------------------------------ writable models

  /** Vertices as read back: the extra record is not part of the vertex record. */
  function BareVertices(vs: seq<Vertex>): (r: seq<Vertex>)
    ensures |r| == |vs| && forall i :: 0 <= i < |r| ==> r[i] == vs[i].(ex := DefaultVertexEx)
  {
    seq(|vs|, i requires 0 <= i < |vs| => vs[i].(ex := DefaultVertexEx))
  }

  /** Joints as read back: neither the extra record nor the comment is part of the joint record. */
  function BareJoints(js: seq<Joint>): (r: seq<Joint>)
    ensures |r| == |js| && forall i :: 0 <= i < |r| ==> r[i] == js[i].(ex := DefaultJointEx, comment := DefaultCommentEx)
  {
    seq(|js|, i requires 0 <= i < |js| => js[i].(ex := DefaultJointEx, comment := DefaultCommentEx))
  }

  /** The extra vertex records as the extra vertex sub-version reads them back. */
  predicate VertexExtraFits(m: ModelData)
  {
    0 <= m.svVertexExtra <= 3 &&
    forall i :: 0 <= i < |m.vertices| ==>
      if m.svVertexExtra == 0 then m.vertices[i].ex == DefaultVertexEx
      else VersionOf(m.vertices[i].ex) == m.svVertexExtra && ValidVertexEx(m.vertices[i].ex)
  }

  /**
   * A model whose every value fits its field, whose comments name their
   * owners, and whose sub-versions say which extra data it has: such a model
   * is written completely and reads back as itself.
   */
  predicate Writable(m: ModelData)
  {
    ValidHeader(m.header) &&
    InRange(Word, |m.vertices|) && (forall i :: 0 <= i < |m.vertices| ==> ValidVertex(m.vertices[i])) &&
    InRange(Word, |m.triangles|) && (forall i :: 0 <= i < |m.triangles| ==> ValidTriangle(m.triangles[i])) &&
    InRange(Word, |m.groups|) && (forall i :: 0 <= i < |m.groups| ==> ValidGroup(m.groups[i])) &&
    InRange(Word, |m.materials|) && (forall i :: 0 <= i < |m.materials| ==> ValidMaterial(m.materials[i])) &&
    InRange(Float, m.animationFps) && InRange(Float, m.currentTime) && InRange(DWord, m.totalFrames) &&
    InRange(Word, |m.joints|) && (forall i :: 0 <= i < |m.joints| ==> ValidJoint(m.joints[i])) &&
    InRange(DWord, m.svComments) &&
    Indexed(GroupCommentList(m.groups)) && Indexed(MaterialCommentList(m.materials)) &&
    Indexed(JointCommentList(m.joints)) &&
    (m.comment.Some? ==> m.comment.value.comment != [] && ValidComment(m.comment.value)) &&
    VertexExtraFits(m) &&
    InRange(DWord, m.svJointExtra) && (m.svJointExtra == 0 ==> m.joints == []) &&
    (forall i :: 0 <= i < |m.joints| ==> ValidJointEx(m.joints[i].ex)) &&
    InRange(DWord, m.svModelExtra) && (m.svModelExtra != 0 ==> ValidModelEx(m.modelEx))
  }

  /** A model within the limits has counts that each fit the 16-bit field holding it in the file. */
  lemma LimitsFitCounts(m: ModelData)
    requires WithinLimits(m)
    ensures InRange(Word, |m.vertices|) && InRange(Word, |m.triangles|) && InRange(Word, |m.groups|)
    ensures InRange(Word, |m.materials|) && InRange(Word, |m.joints|)
  {
  }

  /** The model the required part of `m` gives, read into an object in state `prev`. */
  function Required(prev: ModelData, m: ModelData): ModelData
  {
    prev.(header := m.header, vertices := BareVertices(m.vertices), triangles := m.triangles,
          groups := WithGroupComments(m.groups, DefaultComments(|m.groups|)),
          materials := WithMaterialComments(m.materials, DefaultComments(|m.materials|)),
          animationFps := m.animationFps, currentTime := m.currentTime, totalFrames := m.totalFrames)
  }

  /** What reading a written model into an object in state `prev` gives. */
  function ReadBack(prev: ModelData, m: ModelData): ModelData
  {
    m.(name := prev.name, modelEx := if m.svModelExtra != 0 then m.modelEx else prev.modelEx)
  }

  lemma VertexReadsBack(v: Vertex)
    requires ValidVertex(v)
    ensures ReadsBackAs(DecodeVertex, EmitVertex, v, v.(ex := DefaultVertexEx))
  {
    forall r: seq<uint8> {
      VertexRoundTrip(v, r);
    }
  }

  lemma VerticesRoundTrip(vs: seq<Vertex>, rest: seq<uint8>)
    requires forall i :: 0 <= i < |vs| ==> ValidVertex(vs[i])
    ensures EmitMany(EmitVertex, vs).ok
    ensures DecodeManyFrom(DecodeVertex, |vs|, EmitMany(EmitVertex, vs).bytes + rest, []) == Decoded(BareVertices(vs), rest)
  {
    var ys := BareVertices(vs);
    forall i | 0 <= i < |vs|
      ensures ReadsBackAs(DecodeVertex, EmitVertex, vs[i], ys[i])
    {
      VertexReadsBack(vs[i]);
    }
    ListRoundTrip(DecodeVertex, EmitVertex, vs, ys, rest);
  }

  lemma TriangleReadsBack(t: Triangle)
    requires ValidTriangle(t)
    ensures ReadsBackAs(DecodeTriangle, EmitTriangle, t, t)
  {
    forall r: seq<uint8> {
      TriangleRoundTrip(t, r);
    }
  }

  lemma TrianglesRoundTrip(ts: seq<Triangle>, rest: seq<uint8>)
    requires forall i :: 0 <= i < |ts| ==> ValidTriangle(ts[i])
    ensures EmitMany(EmitTriangle, ts).ok
    ensures DecodeManyFrom(DecodeTriangle, |ts|, EmitMany(EmitTriangle, ts).bytes + rest, []) == Decoded(ts, rest)
  {
    forall i | 0 <= i < |ts|
      ensures ReadsBackAs(DecodeTriangle, EmitTriangle, ts[i], ts[i])
    {
      TriangleReadsBack(ts[i]);
    }
    ListRoundTrip(DecodeTriangle, EmitTriangle, ts, ts, rest);
  }

  lemma GroupReadsBack(g: Group)
    requires ValidGroup(g)
    ensures ReadsBackAs(DecodeGroup, EmitGroup, g, g.(comment := DefaultCommentEx))
  {
    forall r: seq<uint8> {
      GroupRoundTrip(g, r);
    }
  }

  lemma GroupsRoundTrip(gs: seq<Group>, rest: seq<uint8>)
    requires forall i :: 0 <= i < |gs| ==> ValidGroup(gs[i])
    ensures EmitMany(EmitGroup, gs).ok
    ensures DecodeManyFrom(DecodeGroup, |gs|, EmitMany(EmitGroup, gs).bytes + rest, [])
            == Decoded(WithGroupComments(gs, DefaultComments(|gs|)), rest)
  {
    var ys := WithGroupComments(gs, DefaultComments(|gs|));
    forall i | 0 <= i < |gs|
      ensures ReadsBackAs(DecodeGroup, EmitGroup, gs[i], ys[i])
    {
      GroupReadsBack(gs[i]);
    }
    ListRoundTrip(DecodeGroup, EmitGroup, gs, ys, rest);
  }

  lemma MaterialReadsBack(m: Material)
    requires ValidMaterial(m)
    ensures ReadsBackAs(DecodeMaterial, EmitMaterial, m, m.(comment := DefaultCommentEx))
  {
    forall r: seq<uint8> {
      MaterialRoundTrip(m, r);
    }
  }

  lemma MaterialsRoundTrip(ms: seq<Material>, rest: seq<uint8>)
    requires forall i :: 0 <= i < |ms| ==> ValidMaterial(ms[i])
    ensures EmitMany(EmitMaterial, ms).ok
    ensures DecodeManyFrom(DecodeMaterial, |ms|, EmitMany(EmitMaterial, ms).bytes + rest, [])
            == Decoded(WithMaterialComments(ms, DefaultComments(|ms|)), rest)
  {
    var ys := WithMaterialComments(ms, DefaultComments(|ms|));
    forall i | 0 <= i < |ms|
      ensures ReadsBackAs(DecodeMaterial, EmitMaterial, ms[i], ys[i])
    {
      MaterialReadsBack(ms[i]);
    }
    ListRoundTrip(DecodeMaterial, EmitMaterial, ms, ys, rest);
  }

  lemma JointReadsBack(j: Joint)
    requires ValidJoint(j)
    ensures ReadsBackAs(DecodeJoint, EmitJoint, j, j.(ex := DefaultJointEx, comment := DefaultCommentEx))
  {
    forall r: seq<uint8> {
      JointRoundTrip(j, r);
    }
  }

  lemma JointsRoundTrip(js: seq<Joint>, rest: seq<uint8>)
    requires forall i :: 0 <= i < |js| ==> ValidJoint(js[i])
    ensures EmitMany(EmitJoint, js).ok
    ensures DecodeManyFrom(DecodeJoint, |js|, EmitMany(EmitJoint, js).bytes + rest, []) == Decoded(BareJoints(js), rest)
  {
    var ys := BareJoints(js);
    forall i | 0 <= i < |js|
      ensures ReadsBackAs(DecodeJoint, EmitJoint, js[i], ys[i])
    {
      JointAtReadsBack(js, i);
    }
    ListRoundTrip(DecodeJoint, EmitJoint, js, ys, rest);
  }

  lemma JointAtReadsBack(js: seq<Joint>, i: nat)
    requires i < |js| && ValidJoint(js[i])
    ensures ReadsBackAs(DecodeJoint, EmitJoint, js[i], BareJoints(js)[i])
  {
    JointReadsBack(js[i]);
  }

  /** The required part of a writable model is written completely and reads back, leaving what follows. */
  lemma RequiredRoundTrip(prev: ModelData, m: ModelData, rest: seq<uint8>)
    requires Writable(m)
    ensures EmitRequired(m).ok
    ensures DecodeRequired(prev, EmitRequired(m).bytes + rest) == Decoded(Required(prev, m), rest)
  {
    var e12 := EmitScalar(DWord, m.totalFrames);
    var e11 := EmitScalar(Float, m.currentTime).Then(e12);
    var e10 := EmitScalar(Float, m.animationFps).Then(e11);
    var e9 := EmitMany(EmitMaterial, m.materials).Then(e10);
    var e8 := EmitScalar(Word, |m.materials|).Then(e9);
    var e7 := EmitMany(EmitGroup, m.groups).Then(e8);
    var e6 := EmitScalar(Word, |m.groups|).Then(e7);
    var e5 := EmitMany(EmitTriangle, m.triangles).Then(e6);
    var e4 := EmitScalar(Word, |m.triangles|).Then(e5);
    var e3 := EmitMany(EmitVertex, m.vertices).Then(e4);
    var e2 := EmitScalar(Word, |m.vertices|).Then(e3);
    ScalarRoundTrip(DWord, m.totalFrames, rest);
    ScalarRoundTrip(Float, m.currentTime, e12.bytes + rest);
    Glue(EmitScalar(Float, m.currentTime), e12, rest);
    ScalarRoundTrip(Float, m.animationFps, e11.bytes + rest);
    Glue(EmitScalar(Float, m.animationFps), e11, rest);
    MaterialsRoundTrip(m.materials, e10.bytes + rest);
    Glue(EmitMany(EmitMaterial, m.materials), e10, rest);
    ScalarRoundTrip(Word, |m.materials|, e9.bytes + rest);
    Glue(EmitScalar(Word, |m.materials|), e9, rest);
    GroupsRoundTrip(m.groups, e8.bytes + rest);
    Glue(EmitMany(EmitGroup, m.groups), e8, rest);
    ScalarRoundTrip(Word, |m.groups|, e7.bytes + rest);
    Glue(EmitScalar(Word, |m.groups|), e7, rest);
    TrianglesRoundTrip(m.triangles, e6.bytes + rest);
    Glue(EmitMany(EmitTriangle, m.triangles), e6, rest);
    ScalarRoundTrip(Word, |m.triangles|, e5.bytes + rest);
    Glue(EmitScalar(Word, |m.triangles|), e5, rest);
    VerticesRoundTrip(m.vertices, e4.bytes + rest);
    Glue(EmitMany(EmitVertex, m.vertices), e4, rest);
    ScalarRoundTrip(Word, |m.vertices|, e3.bytes + rest);
    Glue(EmitScalar(Word, |m.vertices|), e3, rest);
    HeaderRoundTrip(m.header, e2.bytes + rest);
    Glue(EmitHeader(m.header), e2, rest);
  }

  // ----------------------------------------------------- optional sections

  /** Section 1 reads back the joint records, given that the joint list reads back. */
  lemma JointsSectionReads(t: Tail, js: seq<Joint>, body: seq<uint8>, after: seq<uint8>)
    requires InRange(Word, |js|)
    requires DecodeManyFrom(DecodeJoint, |js|, body, []) == Decoded(BareJoints(js), after)
    requires t.rest == Some(EmitScalar(Word, |js|).bytes + body)
    ensures JointsSection(t) == Done(t, t.m.(joints := BareJoints(js)), after)
  {
    ScalarRoundTrip(Word, |js|, body);
  }

  /** Section 2, given what its comment loop attaches. */
  lemma GroupCommentsSectionAttaches(t: Tail, sv: int, n: int, body: seq<uint8>, cs: seq<CommentEx>, after: seq<uint8>)
    requires InRange(DWord, sv) && InRange(DWord, n) && |cs| == |t.m.groups|
    requires t.rest == Some(EmitScalar(DWord, sv).bytes + (EmitScalar(DWord, n).bytes + body))
    requires AttachCommentsFrom(GroupCommentList(t.m.groups), n, body) == Partial(cs, Some(after))
    ensures GroupCommentsSection(t) == Done(t, t.m.(svComments := sv, groups := WithGroupComments(t.m.groups, cs)), after)
  {
    ScalarRoundTrip(DWord, sv, EmitScalar(DWord, n).bytes + body);
    ScalarRoundTrip(DWord, n, body);
  }

  /** Section 2 reads back the comment sub-version and the group comments. */
  lemma GroupCommentsSectionReads(t: Tail, sv: int, gs: seq<Group>, after: seq<uint8>)
    requires InRange(DWord, sv) && InRange(DWord, |gs|) && Indexed(GroupCommentList(gs))
    requires t.m.groups == WithGroupComments(gs, DefaultComments(|gs|))
    requires t.rest == Some(EmitScalar(DWord, sv).bytes + (EmitComments(GroupCommentList(gs)).bytes + after))
    ensures GroupCommentsSection(t) == Done(t, t.m.(svComments := sv, groups := gs), after)
  {
    var cs := GroupCommentList(gs);
    CommentsRoundTrip(cs, after);
    assert GroupCommentList(t.m.groups) == DefaultComments(|gs|);
    var items := Commented(cs);
    ScalarRoundTrip(DWord, |items|, []);
    Glue(EmitScalar(DWord, |items|), EmitMany(EmitCommentEx, items), after);
    GroupCommentsSectionAttaches(t, sv, |Commented(cs)|, EmitMany(EmitCommentEx, Commented(cs)).bytes + after, cs, after);
    assert WithGroupComments(t.m.groups, cs) == gs;
  }

  /** Section 3 reads back the material comments. */
  lemma MaterialCommentsSectionReads(t: Tail, ms: seq<Material>, after: seq<uint8>)
    requires InRange(DWord, |ms|) && Indexed(MaterialCommentList(ms))
    requires t.m.materials == WithMaterialComments(ms, DefaultComments(|ms|))
    requires t.rest == Some(EmitComments(MaterialCommentList(ms)).bytes + after)
    ensures MaterialCommentsSection(t) == Done(t, t.m.(materials := ms), after)
  {
    var cs := MaterialCommentList(ms);
    CommentsRoundTrip(cs, after);
    assert MaterialCommentList(t.m.materials) == DefaultComments(|ms|);
    assert WithMaterialComments(t.m.materials, cs) == ms;
  }

  /** Section 4 reads back the joint comments onto joints read without them. */
  lemma JointCommentsSectionReads(t: Tail, js: seq<Joint>, after: seq<uint8>)
    requires InRange(DWord, |js|) && Indexed(JointCommentList(js))
    requires t.m.joints == BareJoints(js)
    requires t.rest == Some(EmitComments(JointCommentList(js)).bytes + after)
    ensures JointCommentsSection(t) == Done(t, t.m.(joints := WithJointComments(BareJoints(js), JointCommentList(js))), after)
  {
    var cs := JointCommentList(js);
    CommentsRoundTrip(cs, after);
    assert JointCommentList(t.m.joints) == DefaultComments(|js|);
  }

  /** Section 5 reads back the model comment: none, or one with text. */
  lemma ModelCommentSectionReads(t: Tail, m: ModelData, after: seq<uint8>)
    requires m.comment.Some? ==> m.comment.value.comment != [] && ValidComment(m.comment.value)
    requires t.rest == Some(EmitModelComment(m).bytes + after)
    ensures ModelCommentSection(t) == Done(t, t.m.(comment := m.comment), after)
  {
    var has := HasModelComment(m);
    var body := if has != 0 then EmitComment(m.comment.value) else Nothing;
    if has != 0 {
      CommentRoundTrip(m.comment.value, after);
    }
    ScalarRoundTrip(DWord, has, body.bytes + after);
    Glue(EmitScalar(DWord, has), body, after);
  }

  /** The extra-vertex loop from vertex `i` on reads back each vertex's own extra record. */
  lemma {:induction false} AttachVertexExRoundTrip(vs: seq<Vertex>, cur: seq<Vertex>, version: int, i: nat, after: seq<uint8>)
    requires 1 <= version <= 3 && |cur| == |vs| && i <= |vs|
    requires forall k :: 0 <= k < |vs| ==> VersionOf(vs[k].ex) == version && ValidVertexEx(vs[k].ex)
    requires forall k :: 0 <= k < i ==> cur[k] == vs[k]
    requires forall k :: i <= k < |vs| ==> cur[k] == vs[k].(ex := DefaultVertexEx)
    ensures EmitMany(EmitVertexEx, VertexExList(vs)[i..]).ok
    ensures AttachVertexExFrom(cur, version, i, EmitMany(EmitVertexEx, VertexExList(vs)[i..]).bytes + after)
            == Partial(vs, Some(after))
    decreases |vs| - i
  {
    var xs := VertexExList(vs)[i..];
    if i == |vs| {
      assert xs == [];
      assert EmitMany(EmitVertexEx, xs) == Nothing;
      assert EmitMany(EmitVertexEx, xs).bytes + after == after;
      assert cur == vs;
      assert AttachVertexExFrom(cur, version, i, after) == Partial(cur, Some(after));
    } else {
      assert xs[0] == vs[i].ex;
      assert xs[1..] == VertexExList(vs)[i + 1..];
      var next := cur[i := cur[i].(ex := vs[i].ex)];
      AttachVertexExRoundTrip(vs, next, version, i + 1, after);
      var tail := EmitMany(EmitVertexEx, xs[1..]);
      VertexExRoundTrip(vs[i].ex, tail.bytes + after);
      Glue(EmitVertexEx(vs[i].ex), tail, after);
    }
  }

  /** The extra-joint loop from joint `i` on reads back each joint's own extra record. */
  lemma {:induction false} AttachJointExRoundTrip(js: seq<Joint>, cur: seq<Joint>, i: nat, after: seq<uint8>)
    requires |cur| == |js| && i <= |js|
    requires forall k :: 0 <= k < |js| ==> ValidJointEx(js[k].ex)
    requires forall k :: 0 <= k < i ==> cur[k] == js[k]
    requires forall k :: i <= k < |js| ==> cur[k] == js[k].(ex := DefaultJointEx)
    ensures EmitMany(EmitJointEx, JointExList(js)[i..]).ok
    ensures AttachJointExFrom(cur, i, EmitMany(EmitJointEx, JointExList(js)[i..]).bytes + after)
            == Partial(js, Some(after))
    decreases |js| - i
  {
    var xs := JointExList(js)[i..];
    if i == |js| {
      assert xs == [];
      assert EmitMany(EmitJointEx, xs) == Nothing;
      assert EmitMany(EmitJointEx, xs).bytes + after == after;
      assert cur == js;
      assert AttachJointExFrom(cur, i, after) == Partial(cur, Some(after));
    } else {
      assert xs[0] == js[i].ex;
      assert xs[1..] == JointExList(js)[i + 1..];
      var next := cur[i := cur[i].(ex := js[i].ex)];
      AttachJointExRoundTrip(js, next, i + 1, after);
      var tail := EmitMany(EmitJointEx, xs[1..]);
      JointExRoundTrip(js[i].ex, tail.bytes + after);
      Glue(EmitJointEx(js[i].ex), tail, after);
    }
  }

  /** Section 6 reads back the extra vertex sub-version and each vertex's extra record. */
  lemma VertexExtraSectionReads(t: Tail, m: ModelData, after: seq<uint8>)
    requires VertexExtraFits(m)
    requires t.m.vertices == BareVertices(m.vertices)
    requires t.rest == Some(EmitVertexExtra(m).bytes + after)
    ensures VertexExtraSection(t) == Done(t, t.m.(svVertexExtra := m.svVertexExtra, vertices := m.vertices), after)
  {
    var sv := m.svVertexExtra;
    var body := if sv in {1, 2, 3} then EmitMany(EmitVertexEx, VertexExList(m.vertices)) else Nothing;
    if sv == 0 {
      assert BareVertices(m.vertices) == m.vertices;
    } else {
      assert VertexExList(m.vertices)[0..] == VertexExList(m.vertices);
      AttachVertexExRoundTrip(m.vertices, t.m.vertices, sv, 0, after);
    }
    ScalarRoundTrip(DWord, sv, body.bytes + after);
    Glue(EmitScalar(DWord, sv), body, after);
  }

  /** Section 7 reads back the extra joint sub-version and each joint's extra record. */
  lemma JointExtraSectionReads(t: Tail, m: ModelData, after: seq<uint8>)
    requires InRange(DWord, m.svJointExtra) && (m.svJointExtra == 0 ==> m.joints == [])
    requires forall k :: 0 <= k < |m.joints| ==> ValidJointEx(m.joints[k].ex)
    requires |t.m.joints| == |m.joints| && forall k :: 0 <= k < |m.joints| ==> t.m.joints[k] == m.joints[k].(ex := DefaultJointEx)
    requires t.rest == Some(EmitJointExtra(m).bytes + after)
    ensures JointExtraSection(t) == Done(t, t.m.(svJointExtra := m.svJointExtra, joints := m.joints), after)
  {
    var sv := m.svJointExtra;
    var body := if sv != 0 then EmitMany(EmitJointEx, JointExList(m.joints)) else Nothing;
    if sv != 0 {
      assert JointExList(m.joints)[0..] == JointExList(m.joints);
      AttachJointExRoundTrip(m.joints, t.m.joints, 0, after);
    }
    ScalarRoundTrip(DWord, sv, body.bytes + after);
    Glue(EmitScalar(DWord, sv), body, after);
  }

  /**
   * Section 8 reads back the extra model sub-version and, above 0, the extra
   * model data; with 0 the write stops after the sub-version and the object
   * keeps its extra model data.
   */
  lemma ModelExtraSectionReads(t: Tail, m: ModelData, after: seq<uint8>)
    requires InRange(DWord, m.svModelExtra) && (m.svModelExtra != 0 ==> ValidModelEx(m.modelEx))
    requires t.rest == Some(EmitModelExtra(m).bytes + after)
    ensures ModelExtraSection(t)
            == Done(t, t.m.(svModelExtra := m.svModelExtra,
                            modelEx := if m.svModelExtra != 0 then m.modelEx else t.m.modelEx), after)
  {
    var sv := m.svModelExtra;
    var body := if sv != 0 then EmitModelEx(m.modelEx) else Raise;
    if sv != 0 {
      ModelExRoundTrip(m.modelEx, after);
    }
    ScalarRoundTrip(DWord, sv, body.bytes + after);
    Glue(EmitScalar(DWord, sv), body, after);
  }

  // ------------------------------------------------------------ the model

  /** Every section of the optional part of a writable model but the last is written completely. */
  lemma OptionalSectionsWritten(m: ModelData)
    requires Writable(m)
    ensures EmitMany(EmitJoint, m.joints).ok
    ensures EmitComments(GroupCommentList(m.groups)).ok
    ensures EmitComments(MaterialCommentList(m.materials)).ok
    ensures EmitComments(JointCommentList(m.joints)).ok
    ensures EmitModelComment(m).ok && EmitVertexExtra(m).ok && EmitJointExtra(m).ok
  {
    JointsRoundTrip(m.joints, []);
    CommentsRoundTrip(GroupCommentList(m.groups), []);
    CommentsRoundTrip(MaterialCommentList(m.materials), []);
    CommentsRoundTrip(JointCommentList(m.joints), []);
    ModelCommentWritten(m);
    VertexExtraWritten(m);
    JointExtraWritten(m);
  }

  lemma ModelCommentWritten(m: ModelData)
    requires m.comment.Some? ==> m.comment.value.comment != [] && ValidComment(m.comment.value)
    ensures EmitModelComment(m).ok
  {
    if HasModelComment(m) != 0 {
      CommentRoundTrip(m.comment.value, []);
    }
  }

  lemma VertexExtraWritten(m: ModelData)
    requires VertexExtraFits(m)
    ensures EmitVertexExtra(m).ok
  {
    if m.svVertexExtra != 0 {
      assert VertexExList(m.vertices)[0..] == VertexExList(m.vertices);
      AttachVertexExRoundTrip(m.vertices, BareVertices(m.vertices), m.svVertexExtra, 0, []);
    }
  }

  lemma JointExtraWritten(m: ModelData)
    requires InRange(DWord, m.svJointExtra) && (m.svJointExtra == 0 ==> m.joints == [])
    requires forall k :: 0 <= k < |m.joints| ==> ValidJointEx(m.joints[k].ex)
    ensures EmitJointExtra(m).ok
  {
    if m.svJointExtra != 0 {
      assert JointExList(m.joints)[0..] == JointExList(m.joints);
      var bare := seq(|m.joints|, k requires 0 <= k < |m.joints| => m.joints[k].(ex := DefaultJointEx));
      AttachJointExRoundTrip(m.joints, bare, 0, []);
    }
  }

  /** The optional part of a writable model is written section after section. */
  lemma OptionalLayout(m: ModelData, rest: seq<uint8>)
    requires Writable(m)
    ensures EmitOptional(m).bytes + rest ==
      EmitScalar(Word, |m.joints|).bytes + (EmitMany(EmitJoint, m.joints).bytes +
      (EmitScalar(DWord, m.svComments).bytes + (EmitComments(GroupCommentList(m.groups)).bytes +
      (EmitComments(MaterialCommentList(m.materials)).bytes + (EmitComments(JointCommentList(m.joints)).bytes +
      (EmitModelComment(m).bytes + (EmitVertexExtra(m).bytes + (EmitJointExtra(m).bytes +
      (EmitModelExtra(m).bytes + rest)))))))))
  {
    OptionalSectionsWritten(m);
    var r10 := EmitModelExtra(m);
    var r9 := EmitJointExtra(m).Then(r10);
    var r8 := EmitVertexExtra(m).Then(r9);
    var r7 := EmitModelComment(m).Then(r8);
    var r6 := EmitComments(JointCommentList(m.joints)).Then(r7);
    var r5 := EmitComments(MaterialCommentList(m.materials)).Then(r6);
    var r4 := EmitComments(GroupCommentList(m.groups)).Then(r5);
    var r3 := EmitScalar(DWord, m.svComments).Then(r4);
    var r2 := EmitMany(EmitJoint, m.joints).Then(r3);
    Glue(EmitScalar(Word, |m.joints|), r2, rest);
    Glue(EmitMany(EmitJoint, m.joints), r3, rest);
    Glue(EmitScalar(DWord, m.svComments), r4, rest);
    Glue(EmitComments(GroupCommentList(m.groups)), r5, rest);
    Glue(EmitComments(MaterialCommentList(m.materials)), r6, rest);
    Glue(EmitComments(JointCommentList(m.joints)), r7, rest);
    Glue(EmitModelComment(m), r8, rest);
    Glue(EmitVertexExtra(m), r9, rest);
    Glue(EmitJointExtra(m), r10, rest);
  }

  /** The model after the four sections up to the joint comments. */
  function Commented4(prev: ModelData, m: ModelData): ModelData
  {
    Required(prev, m).(joints := WithJointComments(BareJoints(m.joints), JointCommentList(m.joints)),
                       svComments := m.svComments, groups := m.groups, materials := m.materials)
  }

  /** Sections 1 to 4 read back the joints and the three comment lists. */
  lemma FirstSectionsRead(prev: ModelData, m: ModelData, after: seq<uint8>)
    requires Writable(m)
    ensures JointCommentsSection(MaterialCommentsSection(GroupCommentsSection(JointsSection(
      Tail(Required(prev, m), 0, Some(
        EmitScalar(Word, |m.joints|).bytes + (EmitMany(EmitJoint, m.joints).bytes +
        (EmitScalar(DWord, m.svComments).bytes + (EmitComments(GroupCommentList(m.groups)).bytes +
        (EmitComments(MaterialCommentList(m.materials)).bytes + (EmitComments(JointCommentList(m.joints)).bytes + after)))))))))))
      == Tail(Commented4(prev, m), 4, Some(after))
  {
    var a3 := EmitComments(JointCommentList(m.joints)).bytes + after;
    var a2 := EmitComments(MaterialCommentList(m.materials)).bytes + a3;
    var a1 := EmitScalar(DWord, m.svComments).bytes + (EmitComments(GroupCommentList(m.groups)).bytes + a2);
    var t0 := Tail(Required(prev, m), 0, Some(EmitScalar(Word, |m.joints|).bytes + (EmitMany(EmitJoint, m.joints).bytes + a1)));
    JointsRoundTrip(m.joints, a1);
    JointsSectionReads(t0, m.joints, EmitMany(EmitJoint, m.joints).bytes + a1, a1);
    var t1 := JointsSection(t0);
    GroupCommentsSectionReads(t1, m.svComments, m.groups, a2);
    var t2 := GroupCommentsSection(t1);
    MaterialCommentsSectionReads(t2, m.materials, a3);
    var t3 := MaterialCommentsSection(t2);
    JointCommentsSectionReads(t3, m.joints, after);
  }

  /** Sections 5 to 8 read back the model comment and the extra data. */
  lemma LastSectionsRead(prev: ModelData, m: ModelData, after: seq<uint8>)
    requires Writable(m)
    ensures ModelExtraSection(JointExtraSection(VertexExtraSection(ModelCommentSection(
      Tail(Commented4(prev, m), 4, Some(
        EmitModelComment(m).bytes + (EmitVertexExtra(m).bytes + (EmitJointExtra(m).bytes +
        (EmitModelExtra(m).bytes + after)))))))))
      == Tail(ReadBack(prev, m), SECTIONS, Some(after))
  {
    var a3 := EmitModelExtra(m).bytes + after;
    var a2 := EmitJointExtra(m).bytes + a3;
    var a1 := EmitVertexExtra(m).bytes + a2;
    var t4 := Tail(Commented4(prev, m), 4, Some(EmitModelComment(m).bytes + a1));
    ModelCommentSectionReads(t4, m, a1);
    var t5 := ModelCommentSection(t4);
    VertexExtraSectionReads(t5, m, a2);
    var t6 := VertexExtraSection(t5);
    JointExtraSectionReads(t6, m, a3);
    var t7 := JointExtraSection(t6);
    ModelExtraSectionReads(t7, m, after);
  }

  /** The optional part of a writable model reads back completely, onto what its required part gave. */
  lemma OptionalRoundTrip(prev: ModelData, m: ModelData, rest: seq<uint8>)
    requires Writable(m)
    ensures DecodeOptional(Required(prev, m), EmitOptional(m).bytes + rest) == Tail(ReadBack(prev, m), SECTIONS, Some(rest))
  {
    OptionalLayout(m, rest);
    LastSectionsRead(prev, m, rest);
    FirstSectionsRead(prev, m,
      EmitModelComment(m).bytes + (EmitVertexExtra(m).bytes + (EmitJointExtra(m).bytes + (EmitModelExtra(m).bytes + rest))));
  }

  /**
   * A writable model, written and read back into an object in state `prev`,
   * gives the model again, whatever follows it: only the name is the
   * object's own, and so is the extra model data when the model has none.
   */
  lemma ModelRoundTrip(prev: ModelData, m: ModelData, rest: seq<uint8>)
    requires Writable(m)
    ensures EmitModel(m).ok
    ensures ReadModel(prev, EmitModel(m).bytes + rest) == Some(ReadBack(prev, m))
  {
    RequiredRoundTrip(prev, m, EmitOptional(m).bytes + rest);
    Glue(EmitRequired(m), Recover(EmitOptional(m)), rest);
    OptionalRoundTrip(prev, m, rest);
  }

  // --------------------------------------------------- reading, in general

  /** One optional section: it completes, or it stops the optional part, and after a stop it changes nothing. */
  predicate Step(t: Tail, u: Tail)
  {
    (u.rest.Some? ==> t.rest.Some? && u.completed == t.completed + 1) &&
    (u.rest.None? ==> u.completed == t.completed) &&
    (t.rest.None? ==> u == t)
  }

  /** The fields no optional section touches. */
  predicate SameRequired(a: ModelData, b: ModelData)
  {
    a.name == b.name && a.header == b.header && a.triangles == b.triangles &&
    |a.vertices| == |b.vertices| && |a.groups| == |b.groups| && |a.materials| == |b.materials| &&
    a.animationFps == b.animationFps && a.currentTime == b.currentTime && a.totalFrames == b.totalFrames
  }

  lemma JointsSteps(t: Tail)
    ensures Step(t, JointsSection(t)) && SameRequired(t.m, JointsSection(t).m)
  {
  }

  lemma GroupCommentsSteps(t: Tail)
    ensures Step(t, GroupCommentsSection(t)) && SameRequired(t.m, GroupCommentsSection(t).m)
  {
  }

  lemma MaterialCommentsSteps(t: Tail)
    ensures Step(t, MaterialCommentsSection(t)) && SameRequired(t.m, MaterialCommentsSection(t).m)
  {
  }

  lemma JointCommentsSteps(t: Tail)
    ensures Step(t, JointCommentsSection(t)) && SameRequired(t.m, JointCommentsSection(t).m)
  {
  }

  lemma ModelCommentSteps(t: Tail)
    ensures Step(t, ModelCommentSection(t)) && SameRequired(t.m, ModelCommentSection(t).m)
  {
  }

  lemma VertexExtraSteps(t: Tail)
    ensures Step(t, VertexExtraSection(t)) && SameRequired(t.m, VertexExtraSection(t).m)
  {
  }

  lemma JointExtraSteps(t: Tail)
    ensures Step(t, JointExtraSection(t)) && SameRequired(t.m, JointExtraSection(t).m)
  {
  }

  lemma ModelExtraSteps(t: Tail)
    ensures Step(t, ModelExtraSection(t)) && SameRequired(t.m, ModelExtraSection(t).m)
  {
  }

  /**
   * The optional sections are read in order and the first one cut short
   * ends the optional part: the input left is there exactly when all eight
   * completed, and no section touches what the required part read.
   */
  lemma OptionalInOrder(m: ModelData, s: seq<uint8>)
    ensures DecodeOptional(m, s).completed <= SECTIONS
    ensures DecodeOptional(m, s).rest.Some? <==> DecodeOptional(m, s).completed == SECTIONS
    ensures SameRequired(m, DecodeOptional(m, s).m)
  {
    var t0 := Tail(m, 0, Some(s));
    var t1 := JointsSection(t0);
    var t2 := GroupCommentsSection(t1);
    var t3 := MaterialCommentsSection(t2);
    var t4 := JointCommentsSection(t3);
    var t5 := ModelCommentSection(t4);
    var t6 := VertexExtraSection(t5);
    var t7 := JointExtraSection(t6);
    JointsSteps(t0); GroupCommentsSteps(t1); MaterialCommentsSteps(t2); JointCommentsSteps(t3);
    ModelCommentSteps(t4); VertexExtraSteps(t5); JointExtraSteps(t6); ModelExtraSteps(t7);
  }

  /**
   * A file that ends right after the required part: every optional value
   * takes its default, whatever the object held before.
   */
  lemma RequiredOnlyResets(prev: ModelData, m: ModelData)
    requires Writable(m)
    ensures ReadModel(prev, EmitRequired(m).bytes)
            == Some(Required(prev, m).(joints := [], svComments := 0, comment := None, svVertexExtra := 0,
                                       svJointExtra := 0, svModelExtra := 0, modelEx := DefaultModelEx))
  {
    RequiredRoundTrip(prev, m, []);
    assert EmitRequired(m).bytes + [] == EmitRequired(m).bytes;
    NoOptionalPart(Required(prev, m));
  }

  /** With nothing after the required part, no optional section completes. */
  lemma NoOptionalPart(m: ModelData)
    ensures DecodeOptional(m, []) == Tail(m, 0, None)
  {
  }

  // -------------------------------------------------------------- finding

  /** `write_string` of the empty text is `length` zero bytes. */
  lemma {:induction false} EmptyStringZeros(length: nat)
    ensures EmitString(length, "") == Emitted(seq(length, i => 0), true)
  {
    if length > 0 {
      EmptyStringZeros(length - 1);
      assert Drop("", 1) == "";
      assert EncodeScalar(SByte, 0) == [0];
      assert [0] + seq(length - 1, i => 0) == seq(length, i => 0);
    }
  }

  /** Eight zero bytes read as comment 0 with no text. */
  lemma ZerosReadAsEmptyComment(rest: seq<uint8>)
    ensures DecodeCommentEx([0, 0, 0, 0, 0, 0, 0, 0] + rest) == Decoded(CommentEx(0, ""), rest)
  {
    var z := EncodeScalar(DWord, 0);
    assert z == [0, 0, 0, 0];
    ScalarRoundTrip(DWord, 0, z + rest);
    ScalarRoundTrip(DWord, 0, rest);
    assert [0, 0, 0, 0, 0, 0, 0, 0] + rest == z + (z + rest);
  }

  /** A group record without flags or name starts with eight zero bytes. */
  lemma UnnamedGroupStartsWithZeros(g: Group)
    requires g.flags == 0 && g.name == "" && ValidGroup(g)
    ensures EmitGroup(g).bytes == [0, 0, 0, 0, 0, 0, 0, 0] + EmitGroup(g).bytes[8..]
  {
    EmptyStringZeros(LENGTH_NAME);
    var tail := EmitScalar(Word, NumberTriangles(g))
      .Then(EmitArray(Word, NumberTriangles(g), g.triangleIndices)
      .Then(EmitScalar(SByte, g.materialIndex)));
    var name := EmitString(LENGTH_NAME, g.name);
    assert EncodeScalar(Byte, 0) == [0];
    assert EmitGroup(g) == EmitScalar(Byte, 0).Then(name.Then(tail));
    assert EmitGroup(g).bytes == [0] + (name.bytes + tail.bytes);
  }

  /** A comment section as written holding one owner: the count 1, then the owner's record. */
  lemma OneOwnerSection<T>(emit: T -> Emitted, x: T)
    ensures EmitScalar(DWord, 1).Then(EmitMany(emit, [x])).bytes == EmitScalar(DWord, 1).bytes + emit(x).bytes
  {
    assert EmitMany(emit, [x]) == emit(x).Then(Nothing);
    ThenNothing(emit(x));
    ScalarRoundTrip(DWord, 1, []);
  }

  /** As written, the section for one commented group is the count 1 and then the group's own record. */
  lemma OneCommentedGroupAsWritten(g: Group)
    requires HasText(g.comment)
    ensures EmitGroupCommentsAsWritten([g]).bytes == EmitScalar(DWord, 1).bytes + EmitGroup(g).bytes
  {
    assert CommentedGroups([g]) == [g];
    OneOwnerSection(EmitGroup, g);
  }

  /** As written, the section for one commented material is the count 1 and then the material's own record. */
  lemma OneCommentedMaterialAsWritten(mat: Material)
    requires HasText(mat.comment)
    ensures EmitMaterialCommentsAsWritten([mat]).bytes == EmitScalar(DWord, 1).bytes + EmitMaterial(mat).bytes
  {
    assert CommentedMaterials([mat]) == [mat];
    OneOwnerSection(EmitMaterial, mat);
  }

  /** As written, the section for one commented joint is the count 1 and then the joint's own record. */
  lemma OneCommentedJointAsWritten(j: Joint)
    requires HasText(j.comment)
    ensures EmitJointCommentsAsWritten([j]).bytes == EmitScalar(DWord, 1).bytes + EmitJoint(j).bytes
  {
    assert CommentedJoints([j]) == [j];
    OneOwnerSection(EmitJoint, j);
  }

  /**
   * When no group, material or joint carries comment text, the optional
   * part as written and the corrected one are the same bytes: the finding
   * only shows once an owner is commented.
   */
  lemma AsWrittenAgreesWithoutComments(m: ModelData)
    requires Commented(GroupCommentList(m.groups)) == []
    requires Commented(MaterialCommentList(m.materials)) == []
    requires Commented(JointCommentList(m.joints)) == []
    ensures EmitOptionalAsWritten(m) == EmitOptional(m)
  {
    assert CommentedGroups(m.groups) == [];
    assert CommentedMaterials(m.materials) == [];
    assert CommentedJoints(m.joints) == [];
    assert EmitGroupCommentsAsWritten(m.groups) == EmitComments(GroupCommentList(m.groups));
    assert EmitMaterialCommentsAsWritten(m.materials) == EmitComments(MaterialCommentList(m.materials));
    assert EmitJointCommentsAsWritten(m.joints) == EmitComments(JointCommentList(m.joints));
  }

  /** The comment loop, given an unnamed group record in place of a comment, attaches an empty comment. */
  lemma UnnamedGroupReadsAsEmptyComment(g: Group)
    requires g.flags == 0 && g.name == "" && ValidGroup(g)
    ensures AttachCommentsFrom([DefaultCommentEx], 1, EmitGroup(g).bytes)
            == Partial([DefaultCommentEx], Some(EmitGroup(g).bytes[8..]))
  {
    UnnamedGroupStartsWithZeros(g);
    var body := EmitGroup(g).bytes;
    ZerosReadAsEmptyComment(body[8..]);
    assert DecodeCommentEx(body) == Decoded(DefaultCommentEx, body[8..]);
    assert Attach([DefaultCommentEx], DefaultCommentEx) == [DefaultCommentEx];
  }

  /**
   * As written, the group comment section loses the comment: a group
   * without flags or name (the group `Group(0, "", [], -1, CommentEx(0, "x"))`,
   * say) is written as its group record, whose first eight zero bytes read
   * back as comment 0 with no text, so the group ends up with the default
   * comment instead of its own.
   */
  lemma GroupCommentsAsWrittenLoseComment(t: Tail, g: Group)
    requires g.flags == 0 && g.name == "" && ValidGroup(g) && HasText(g.comment)
    requires t.m.groups == [g.(comment := DefaultCommentEx)]
    requires t.rest == Some(EmitScalar(DWord, 1).bytes + EmitGroupCommentsAsWritten([g]).bytes)
    ensures GroupCommentsSection(t).rest.Some?
    ensures GroupCommentsSection(t).m.groups == [g.(comment := DefaultCommentEx)] != [g]
  {
    var body := EmitGroup(g).bytes;
    OneCommentedGroupAsWritten(g);
    UnnamedGroupReadsAsEmptyComment(g);
    OneGroupSectionReads(t, body, body[8..]);
  }

  /** Section 2 over one group with the default comment, whatever bytes stand where its comment belongs. */
  lemma OneGroupSectionReads(t: Tail, body: seq<uint8>, after: seq<uint8>)
    requires |t.m.groups| == 1 && t.m.groups[0].comment == DefaultCommentEx
    requires t.rest == Some(EmitScalar(DWord, 1).bytes + (EmitScalar(DWord, 1).bytes + body))
    requires AttachCommentsFrom([DefaultCommentEx], 1, body) == Partial([DefaultCommentEx], Some(after))
    ensures GroupCommentsSection(t).rest == Some(after)
    ensures GroupCommentsSection(t).m.groups == t.m.groups
  {
    assert GroupCommentList(t.m.groups) == [DefaultCommentEx];
    GroupCommentsSectionAttaches(t, 1, 1, body, [DefaultCommentEx], after);
    assert WithGroupComments(t.m.groups, [DefaultCommentEx]) == t.m.groups;
  }
}
