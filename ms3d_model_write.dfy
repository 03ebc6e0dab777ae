/**
 * The writing half of `Ms3dModel.write`, on the model's state as a value:
 * each method writes exactly the bytes the pure description of the file
 * layout gives, and fails exactly where that description fails.
 */
module Ms3dModelWrite {
  import opened Ms3dIo
  import opened Ms3dRecords
  import opened Ms3dRecordIo
  import opened Ms3dModelFormat
  import opened Ms3dListIo

  /** `Ms3dModel.write` up to the frame count. */
  method WriteRequired(f: Ms3dWriter, m: ModelData) returns (ok: bool)
    modifies f
    ensures f.written == old(f.written) + EmitRequired(m).bytes
    ensures ok == EmitRequired(m).ok
  {
    ghost var whole := EmitRequired(m);
    ghost var e1 := EmitHeader(m.header);
    ghost var e2 := EmitScalar(Word, |m.vertices|);
    ghost var e3 := EmitMany(EmitVertex, m.vertices);
    ghost var e4 := EmitScalar(Word, |m.triangles|);
    ghost var e5 := EmitMany(EmitTriangle, m.triangles);
    ghost var e6 := EmitScalar(Word, |m.groups|);
    // r<k>: the writes from the k-th on
    ghost var r7 := RequiredFromGroups(m);
    ghost var r6 := e6.Then(r7);
    ghost var r5 := e5.Then(r6);
    ghost var r4 := e4.Then(r5);
    ghost var r3 := e3.Then(r4);
    ghost var r2 := e2.Then(r3);
    ghost var start := f.written;
    ok := WriteHeader(f, m.header);
    if !ok {
      return;
    }
    ghost var done := e1.bytes;
    assert Pending(whole, done, r2);
    Advance(whole, start, done, e2, r3);
    ok := f.WriteScalar(Word, |m.vertices|);
    done := done + e2.bytes;
    if !ok {
      return;
    }
    Advance(whole, start, done, e3, r4);
    ok := WriteVertices(f, m.vertices);
    done := done + e3.bytes;
    if !ok {
      return;
    }
    Advance(whole, start, done, e4, r5);
    ok := f.WriteScalar(Word, |m.triangles|);
    done := done + e4.bytes;
    if !ok {
      return;
    }
    Advance(whole, start, done, e5, r6);
    ok := WriteTriangles(f, m.triangles);
    done := done + e5.bytes;
    if !ok {
      return;
    }
    Advance(whole, start, done, e6, r7);
    ok := f.WriteScalar(Word, |m.groups|);
    done := done + e6.bytes;
    if !ok {
      return;
    }
    Ms3dIo.Finish(whole, start, done, r7);
    ok := WriteRequiredFromGroups(f, m);
  }

  /** The writes of the required part from the group records on. */
  ghost function RequiredFromGroups(m: ModelData): Emitted
  {
    EmitMany(EmitGroup, m.groups)
      .Then(EmitScalar(Word, |m.materials|)
      .Then(EmitMany(EmitMaterial, m.materials)
      .Then(EmitScalar(Float, m.animationFps)
      .Then(EmitScalar(Float, m.currentTime)
      .Then(EmitScalar(DWord, m.totalFrames))))))
  }

  /** `Ms3dModel.write` from the group records to the frame count. */
  method WriteRequiredFromGroups(f: Ms3dWriter, m: ModelData) returns (ok: bool)
    modifies f
    ensures f.written == old(f.written) + RequiredFromGroups(m).bytes
    ensures ok == RequiredFromGroups(m).ok
  {
    ghost var whole := RequiredFromGroups(m);
    ghost var e7 := EmitMany(EmitGroup, m.groups);
    ghost var e8 := EmitScalar(Word, |m.materials|);
    ghost var e9 := EmitMany(EmitMaterial, m.materials);
    ghost var e10 := EmitScalar(Float, m.animationFps);
    ghost var e11 := EmitScalar(Float, m.currentTime);
    ghost var e12 := EmitScalar(DWord, m.totalFrames);
    // r<k>: the writes from the k-th on
    ghost var r12 := e12;
    ghost var r11 := e11.Then(r12);
    ghost var r10 := e10.Then(r11);
    ghost var r9 := e9.Then(r10);
    ghost var r8 := e8.Then(r9);
    ghost var start := f.written;
    ok := WriteGroups(f, m.groups);
    if !ok {
      return;
    }
    ghost var done := e7.bytes;
    assert Pending(whole, done, r8);
    Advance(whole, start, done, e8, r9);
    ok := f.WriteScalar(Word, |m.materials|);
    done := done + e8.bytes;
    if !ok {
      return;
    }
    Advance(whole, start, done, e9, r10);
    ok := WriteMaterials(f, m.materials);
    done := done + e9.bytes;
    if !ok {
      return;
    }
    Advance(whole, start, done, e10, r11);
    ok := f.WriteScalar(Float, m.animationFps);
    done := done + e10.bytes;
    if !ok {
      return;
    }
    Advance(whole, start, done, e11, r12);
    ok := f.WriteScalar(Float, m.currentTime);
    done := done + e11.bytes;
    if !ok {
      return;
    }
    Ms3dIo.Finish(whole, start, done, e12);
    ok := f.WriteScalar(DWord, m.totalFrames);
  }

  /** A comment section: the number of commented owners, then their comments. */
  method WriteComments(f: Ms3dWriter, cs: seq<CommentEx>) returns (ok: bool)
    modifies f
    ensures f.written == old(f.written) + EmitComments(cs).bytes
    ensures ok == EmitComments(cs).ok
  {
    var commented := Commented(cs);
    ghost var whole := EmitComments(cs);
    ghost var e2 := EmitMany(EmitCommentEx, commented);
    ghost var start := f.written;
    ok := f.WriteScalar(DWord, |commented|);
    if !ok {
      return;
    }
    ghost var done := EmitScalar(DWord, |commented|).bytes;
    assert Pending(whole, done, e2);
    Ms3dIo.Finish(whole, start, done, e2);
    ok := WriteCommentExs(f, commented);
  }

  /** The model comment: its flag, then the comment when the flag is set. */
  method WriteModelComment(f: Ms3dWriter, m: ModelData) returns (ok: bool)
    modifies f
    ensures f.written == old(f.written) + EmitModelComment(m).bytes
    ensures ok == EmitModelComment(m).ok
  {
    var has := HasModelComment(m);
    ghost var whole := EmitModelComment(m);
    ghost var e2 := if has != 0 then EmitComment(m.comment.value) else Nothing;
    ghost var start := f.written;
    ok := f.WriteScalar(DWord, has);
    if !ok {
      return;
    }
    ghost var done := EmitScalar(DWord, has).bytes;
    assert Pending(whole, done, e2);
    Ms3dIo.Finish(whole, start, done, e2);
    if has != 0 {
      ok := WriteComment(f, m.comment.value);
    }
  }

  /** The extra vertex data: its sub-version, then the records when the sub-version is 1, 2 or 3. */
  method WriteVertexExtra(f: Ms3dWriter, m: ModelData) returns (ok: bool)
    modifies f
    ensures f.written == old(f.written) + EmitVertexExtra(m).bytes
    ensures ok == EmitVertexExtra(m).ok
  {
    ghost var whole := EmitVertexExtra(m);
    ghost var e2 := if m.svVertexExtra in {1, 2, 3} then EmitMany(EmitVertexEx, VertexExList(m.vertices)) else Nothing;
    ghost var start := f.written;
    ok := f.WriteScalar(DWord, m.svVertexExtra);
    if !ok {
      return;
    }
    ghost var done := EmitScalar(DWord, m.svVertexExtra).bytes;
    assert Pending(whole, done, e2);
    Ms3dIo.Finish(whole, start, done, e2);
    if m.svVertexExtra in {1, 2, 3} {
      ok := WriteVertexExs(f, VertexExList(m.vertices));
    }
  }

  /**
   * The extra joint data: its sub-version, then each joint's record; with
   * sub-version 0 there are no records, so a model with joints raises.
   */
  method WriteJointExtra(f: Ms3dWriter, m: ModelData) returns (ok: bool)
    modifies f
    ensures f.written == old(f.written) + EmitJointExtra(m).bytes
    ensures ok == EmitJointExtra(m).ok
  {
    ghost var whole := EmitJointExtra(m);
    ghost var e2 := if m.svJointExtra != 0 then EmitMany(EmitJointEx, JointExList(m.joints))
                    else if m.joints == [] then Nothing
                    else Raise;
    ghost var start := f.written;
    ok := f.WriteScalar(DWord, m.svJointExtra);
    if !ok {
      return;
    }
    ghost var done := EmitScalar(DWord, m.svJointExtra).bytes;
    assert Pending(whole, done, e2);
    Ms3dIo.Finish(whole, start, done, e2);
    if m.svJointExtra != 0 {
      ok := WriteJointExs(f, JointExList(m.joints));
    } else {
      ok := m.joints == [];
    }
  }

  /** The extra model data: its sub-version, then the data, which is missing (and raises) with sub-version 0. */
  method WriteModelExtra(f: Ms3dWriter, m: ModelData) returns (ok: bool)
    modifies f
    ensures f.written == old(f.written) + EmitModelExtra(m).bytes
    ensures ok == EmitModelExtra(m).ok
  {
    ghost var whole := EmitModelExtra(m);
    ghost var e2 := if m.svModelExtra != 0 then EmitModelEx(m.modelEx) else Raise;
    ghost var start := f.written;
    ok := f.WriteScalar(DWord, m.svModelExtra);
    if !ok {
      return;
    }
    ghost var done := EmitScalar(DWord, m.svModelExtra).bytes;
    assert Pending(whole, done, e2);
    Ms3dIo.Finish(whole, start, done, e2);
    if m.svModelExtra != 0 {
      ok := WriteModelEx(f, m.modelEx);
    } else {
      ok := false;
    }
  }

  /** The body of the `try` in `Ms3dModel.write`: the optional part, ending at the first failure. */
  method WriteOptional(f: Ms3dWriter, m: ModelData) returns (ok: bool)
    modifies f
    ensures f.written == old(f.written) + EmitOptional(m).bytes
    ensures ok == EmitOptional(m).ok
  {
    ghost var whole := EmitOptional(m);
    ghost var e1 := EmitScalar(Word, |m.joints|);
    ghost var e2 := EmitMany(EmitJoint, m.joints);
    ghost var e3 := EmitScalar(DWord, m.svComments);
    ghost var e4 := EmitComments(GroupCommentList(m.groups));
    ghost var e5 := EmitComments(MaterialCommentList(m.materials));
    ghost var e6 := EmitComments(JointCommentList(m.joints));
    ghost var e7 := EmitModelComment(m);
    ghost var e8 := EmitVertexExtra(m);
    ghost var e9 := EmitJointExtra(m);
    ghost var e10 := EmitModelExtra(m);
    // r<k>: the writes from the k-th on
    ghost var r10 := e10;
    ghost var r9 := e9.Then(r10);
    ghost var r8 := e8.Then(r9);
    ghost var r7 := e7.Then(r8);
    ghost var r6 := e6.Then(r7);
    ghost var r5 := e5.Then(r6);
    ghost var r4 := e4.Then(r5);
    ghost var r3 := e3.Then(r4);
    ghost var r2 := e2.Then(r3);
    ghost var start := f.written;
    ok := f.WriteScalar(Word, |m.joints|);
    if !ok {
      return;
    }
    ghost var done := e1.bytes;
    assert Pending(whole, done, r2);
    Advance(whole, start, done, e2, r3);
    ok := WriteJoints(f, m.joints);
    done := done + e2.bytes;
    if !ok {
      return;
    }
    Advance(whole, start, done, e3, r4);
    ok := f.WriteScalar(DWord, m.svComments);
    done := done + e3.bytes;
    if !ok {
      return;
    }
    Advance(whole, start, done, e4, r5);
    ok := WriteComments(f, GroupCommentList(m.groups));
    done := done + e4.bytes;
    if !ok {
      return;
    }
    Advance(whole, start, done, e5, r6);
    ok := WriteComments(f, MaterialCommentList(m.materials));
    done := done + e5.bytes;
    if !ok {
      return;
    }
    Advance(whole, start, done, e6, r7);
    ok := WriteComments(f, JointCommentList(m.joints));
    done := done + e6.bytes;
    if !ok {
      return;
    }
    Advance(whole, start, done, e7, r8);
    ok := WriteModelComment(f, m);
    done := done + e7.bytes;
    if !ok {
      return;
    }
    Advance(whole, start, done, e8, r9);
    ok := WriteVertexExtra(f, m);
    done := done + e8.bytes;
    if !ok {
      return;
    }
    Advance(whole, start, done, e9, r10);
    ok := WriteJointExtra(f, m);
    done := done + e9.bytes;
    if !ok {
      return;
    }
    Ms3dIo.Finish(whole, start, done, e10);
    ok := WriteModelExtra(f, m);
  }
}
