/**
 * The `read` and `write` methods of the MilkShape 3D record classes: each
 * record is read or written field by field through the stream, and each
 * method is proved to do exactly what the byte layout of its record says.
 */
module Ms3dRecordIo {
  import opened Wrappers
  import opened Ms3dIo
  import opened Ms3dRecords

  /** The `read` of `Ms3dHeader`. */
  method ReadHeader(f: Ms3dReader) returns (r: Option<Header>)
    requires f.Valid()
    modifies f
    ensures f.Valid()
    ensures Outcome(r, f.Rest()) == DecodeHeader(old(f.Rest()))
  {
    var id := f.ReadString(LENGTH_ID);
    if id.None? {
      return None;
    }
    var version := f.ReadScalar(DWord);
    if version.None? {
      return None;
    }
    r := Some(Header(id.value, version.value));
  }

  /** The `write` of `Ms3dHeader`. */
  method WriteHeader(f: Ms3dWriter, h: Header) returns (ok: bool)
    modifies f
    ensures f.written == old(f.written) + EmitHeader(h).bytes
    ensures ok == EmitHeader(h).ok
  {
    ghost var whole := EmitHeader(h);
    ghost var e1 := EmitString(LENGTH_ID, h.id);
    ghost var e2 := EmitScalar(DWord, h.version);
    // r<k>: the writes from the k-th on
    ghost var r2 := e2;
    ghost var start := f.written;
    ok := f.WriteString(LENGTH_ID, h.id);
    if !ok {
      return;
    }
    ghost var done := e1.bytes;
    assert Pending(whole, done, r2);
    Finish(whole, start, done, e2);
    ok := f.WriteScalar(DWord, h.version);
  }

  /** The `read` of `Ms3dVertex`. */
  method ReadVertex(f: Ms3dReader) returns (r: Option<Vertex>)
    requires f.Valid()
    modifies f
    ensures f.Valid()
    ensures Outcome(r, f.Rest()) == DecodeVertex(old(f.Rest()))
  {
    var flags := f.ReadScalar(Byte);
    if flags.None? {
      return None;
    }
    var vertex := f.ReadArray(Float, 3);
    if vertex.None? {
      return None;
    }
    var boneId := f.ReadScalar(SByte);
    if boneId.None? {
      return None;
    }
    var referenceCount := f.ReadScalar(Byte);
    if referenceCount.None? {
      return None;
    }
    r := Some(Vertex(flags.value, vertex.value, boneId.value, referenceCount.value, DefaultVertexEx));
  }

  /** The `write` of `Ms3dVertex`. */
  method WriteVertex(f: Ms3dWriter, v: Vertex) returns (ok: bool)
    modifies f
    ensures f.written == old(f.written) + EmitVertex(v).bytes
    ensures ok == EmitVertex(v).ok
  {
    ghost var whole := EmitVertex(v);
    ghost var e1 := EmitScalar(Byte, v.flags);
    ghost var e2 := EmitArray(Float, 3, v.vertex);
    ghost var e3 := EmitScalar(SByte, v.boneId);
    ghost var e4 := EmitScalar(Byte, v.referenceCount);
    // r<k>: the writes from the k-th on
    ghost var r4 := e4;
    ghost var r3 := e3.Then(r4);
    ghost var r2 := e2.Then(r3);
    ghost var start := f.written;
    ok := f.WriteScalar(Byte, v.flags);
    if !ok {
      return;
    }
    ghost var done := e1.bytes;
    assert Pending(whole, done, r2);
    Advance(whole, start, done, e2, r3);
    ok := f.WriteArray(Float, 3, v.vertex);
    done := done + e2.bytes;
    if !ok {
      return;
    }
    Advance(whole, start, done, e3, r4);
    ok := f.WriteScalar(SByte, v.boneId);
    done := done + e3.bytes;
    if !ok {
      return;
    }
    Finish(whole, start, done, e4);
    ok := f.WriteScalar(Byte, v.referenceCount);
  }

  /** The `read` of `Ms3dTriangle`. */
  method ReadTriangle(f: Ms3dReader) returns (r: Option<Triangle>)
    requires f.Valid()
    modifies f
    ensures f.Valid()
    ensures Outcome(r, f.Rest()) == DecodeTriangle(old(f.Rest()))
  {
    var flags := f.ReadScalar(Word);
    if flags.None? {
      return None;
    }
    var indices := f.ReadArray(Word, 3);
    if indices.None? {
      return None;
    }
    var normals := f.ReadArray2(Float, 3, 3);
    if normals.None? {
      return None;
    }
    var ss := f.ReadArray(Float, 3);
    if ss.None? {
      return None;
    }
    var ts := f.ReadArray(Float, 3);
    if ts.None? {
      return None;
    }
    var smoothing := f.ReadScalar(Byte);
    if smoothing.None? {
      return None;
    }
    var group := f.ReadScalar(Byte);
    if group.None? {
      return None;
    }
    r := Some(Triangle(flags.value, indices.value, normals.value, ss.value, ts.value, smoothing.value, group.value));
  }

  /** The `write` of `Ms3dTriangle`. */
  method WriteTriangle(f: Ms3dWriter, t: Triangle) returns (ok: bool)
    modifies f
    ensures f.written == old(f.written) + EmitTriangle(t).bytes
    ensures ok == EmitTriangle(t).ok
  {
    ghost var whole := EmitTriangle(t);
    ghost var e1 := EmitScalar(Word, t.flags);
    ghost var e2 := EmitArray(Word, 3, t.vertexIndices);
    ghost var e3 := EmitArray2(Float, 3, 3, t.vertexNormals);
    ghost var e4 := EmitArray(Float, 3, t.s);
    ghost var e5 := EmitArray(Float, 3, t.t);
    ghost var e6 := EmitScalar(Byte, t.smoothingGroup);
    ghost var e7 := EmitScalar(Byte, t.groupIndex);
    // r<k>: the writes from the k-th on
    ghost var r7 := e7;
    ghost var r6 := e6.Then(r7);
    ghost var r5 := e5.Then(r6);
    ghost var r4 := e4.Then(r5);
    ghost var r3 := e3.Then(r4);
    ghost var r2 := e2.Then(r3);
    ghost var start := f.written;
    ok := f.WriteScalar(Word, t.flags);
    if !ok {
      return;
    }
    ghost var done := e1.bytes;
    assert Pending(whole, done, r2);
    Advance(whole, start, done, e2, r3);
    ok := f.WriteArray(Word, 3, t.vertexIndices);
    done := done + e2.bytes;
    if !ok {
      return;
    }
    Advance(whole, start, done, e3, r4);
    ok := f.WriteArray2(Float, 3, 3, t.vertexNormals);
    done := done + e3.bytes;
    if !ok {
      return;
    }
    Advance(whole, start, done, e4, r5);
    ok := f.WriteArray(Float, 3, t.s);
    done := done + e4.bytes;
    if !ok {
      return;
    }
    Advance(whole, start, done, e5, r6);
    ok := f.WriteArray(Float, 3, t.t);
    done := done + e5.bytes;
    if !ok {
      return;
    }
    Advance(whole, start, done, e6, r7);
    ok := f.WriteScalar(Byte, t.smoothingGroup);
    done := done + e6.bytes;
    if !ok {
      return;
    }
    Finish(whole, start, done, e7);
    ok := f.WriteScalar(Byte, t.groupIndex);
  }

  /** The `read` of `Ms3dGroup`. */
  method ReadGroup(f: Ms3dReader) returns (r: Option<Group>)
    requires f.Valid()
    modifies f
    ensures f.Valid()
    ensures Outcome(r, f.Rest()) == DecodeGroup(old(f.Rest()))
  {
    var flags := f.ReadScalar(Byte);
    if flags.None? {
      return None;
    }
    var name := f.ReadString(LENGTH_NAME);
    if name.None? {
      return None;
    }
    var n := f.ReadScalar(Word);
    if n.None? {
      return None;
    }
    var indices := f.ReadArray(Word, n.value);
    if indices.None? {
      return None;
    }
    var material := f.ReadScalar(SByte);
    if material.None? {
      return None;
    }
    r := Some(Group(flags.value, name.value, indices.value, material.value, DefaultCommentEx));
  }

  /** The `write` of `Ms3dGroup`. */
  method WriteGroup(f: Ms3dWriter, g: Group) returns (ok: bool)
    modifies f
    ensures f.written == old(f.written) + EmitGroup(g).bytes
    ensures ok == EmitGroup(g).ok
  {
    ghost var whole := EmitGroup(g);
    ghost var e1 := EmitScalar(Byte, g.flags);
    ghost var e2 := EmitString(LENGTH_NAME, g.name);
    ghost var e3 := EmitScalar(Word, NumberTriangles(g));
    ghost var e4 := EmitArray(Word, NumberTriangles(g), g.triangleIndices);
    ghost var e5 := EmitScalar(SByte, g.materialIndex);
    // r<k>: the writes from the k-th on
    ghost var r5 := e5;
    ghost var r4 := e4.Then(r5);
    ghost var r3 := e3.Then(r4);
    ghost var r2 := e2.Then(r3);
    ghost var start := f.written;
    ok := f.WriteScalar(Byte, g.flags);
    if !ok {
      return;
    }
    ghost var done := e1.bytes;
    assert Pending(whole, done, r2);
    Advance(whole, start, done, e2, r3);
    ok := f.WriteString(LENGTH_NAME, g.name);
    done := done + e2.bytes;
    if !ok {
      return;
    }
    Advance(whole, start, done, e3, r4);
    ok := f.WriteScalar(Word, NumberTriangles(g));
    done := done + e3.bytes;
    if !ok {
      return;
    }
    Advance(whole, start, done, e4, r5);
    ok := f.WriteArray(Word, NumberTriangles(g), g.triangleIndices);
    done := done + e4.bytes;
    if !ok {
      return;
    }
    Finish(whole, start, done, e5);
    ok := f.WriteScalar(SByte, g.materialIndex);
  }

  /** The `read` of `Ms3dMaterial`. */
  method ReadMaterial(f: Ms3dReader) returns (r: Option<Material>)
    requires f.Valid()
    modifies f
    ensures f.Valid()
    ensures Outcome(r, f.Rest()) == DecodeMaterial(old(f.Rest()))
  {
    var name := f.ReadString(LENGTH_NAME);
    if name.None? {
      return None;
    }
    var ambient := f.ReadArray(Float, 4);
    if ambient.None? {
      return None;
    }
    var diffuse := f.ReadArray(Float, 4);
    if diffuse.None? {
      return None;
    }
    var specular := f.ReadArray(Float, 4);
    if specular.None? {
      return None;
    }
    var emissive := f.ReadArray(Float, 4);
    if emissive.None? {
      return None;
    }
    var shininess := f.ReadScalar(Float);
    if shininess.None? {
      return None;
    }
    var transparency := f.ReadScalar(Float);
    if transparency.None? {
      return None;
    }
    var mode := f.ReadScalar(SByte);
    if mode.None? {
      return None;
    }
    var texture := f.ReadString(LENGTH_FILENAME);
    if texture.None? {
      return None;
    }
    var alphamap := f.ReadString(LENGTH_FILENAME);
    if alphamap.None? {
      return None;
    }
    r := Some(Material(name.value, ambient.value, diffuse.value, specular.value, emissive.value,
                     shininess.value, transparency.value, mode.value, texture.value, alphamap.value,
                     DefaultCommentEx));
  }

  /** The `write` of `Ms3dMaterial`. */
  method WriteMaterial(f: Ms3dWriter, m: Material) returns (ok: bool)
    modifies f
    ensures f.written == old(f.written) + EmitMaterial(m).bytes
    ensures ok == EmitMaterial(m).ok
  {
    ghost var whole := EmitMaterial(m);
    ghost var e1 := EmitString(LENGTH_NAME, m.name);
    ghost var e2 := EmitArray(Float, 4, m.ambient);
    ghost var e3 := EmitArray(Float, 4, m.diffuse);
    ghost var e4 := EmitArray(Float, 4, m.specular);
    ghost var e5 := EmitArray(Float, 4, m.emissive);
    ghost var e6 := EmitScalar(Float, m.shininess);
    ghost var e7 := EmitScalar(Float, m.transparency);
    ghost var e8 := EmitScalar(SByte, m.mode);
    ghost var e9 := EmitString(LENGTH_FILENAME, m.texture);
    ghost var e10 := EmitString(LENGTH_FILENAME, m.alphamap);
    // r<k>: the writes from the k-th on
    ghost var r10 := e10;
    ghost var r9 := e9.Then(r10);
    ghost var r8 := e8.Then(r9);
    ghost var r7 := e7.Then(r8);
    ghost var r6 := e6.Then(r7);
    ghost var r5 := e5.Then(r6);
    ghost var r4 := e4.Then(r5);
    ghost var r3 := e3.Then(r4);
    ghost var r2 := e2.Then(r3);
    ghost var start := f.written;
    ok := f.WriteString(LENGTH_NAME, m.name);
    if !ok {
      return;
    }
    ghost var done := e1.bytes;
    assert Pending(whole, done, r2);
    Advance(whole, start, done, e2, r3);
    ok := f.WriteArray(Float, 4, m.ambient);
    done := done + e2.bytes;
    if !ok {
      return;
    }
    Advance(whole, start, done, e3, r4);
    ok := f.WriteArray(Float, 4, m.diffuse);
    done := done + e3.bytes;
    if !ok {
      return;
    }
    Advance(whole, start, done, e4, r5);
    ok := f.WriteArray(Float, 4, m.specular);
    done := done + e4.bytes;
    if !ok {
      return;
    }
    Advance(whole, start, done, e5, r6);
    ok := f.WriteArray(Float, 4, m.emissive);
    done := done + e5.bytes;
    if !ok {
      return;
    }
    Advance(whole, start, done, e6, r7);
    ok := f.WriteScalar(Float, m.shininess);
    done := done + e6.bytes;
    if !ok {
      return;
    }
    Advance(whole, start, done, e7, r8);
    ok := f.WriteScalar(Float, m.transparency);
    done := done + e7.bytes;
    if !ok {
      return;
    }
    Advance(whole, start, done, e8, r9);
    ok := f.WriteScalar(SByte, m.mode);
    done := done + e8.bytes;
    if !ok {
      return;
    }
    Advance(whole, start, done, e9, r10);
    ok := f.WriteString(LENGTH_FILENAME, m.texture);
    done := done + e9.bytes;
    if !ok {
      return;
    }
    Finish(whole, start, done, e10);
    ok := f.WriteString(LENGTH_FILENAME, m.alphamap);
  }

  /** The `read` of `Ms3dRotationKeyframe` and `Ms3dTranslationKeyframe`. */
  method ReadKeyframe(f: Ms3dReader) returns (r: Option<Keyframe>)
    requires f.Valid()
    modifies f
    ensures f.Valid()
    ensures Outcome(r, f.Rest()) == DecodeKeyframe(old(f.Rest()))
  {
    var time := f.ReadScalar(Float);
    if time.None? {
      return None;
    }
    var vector := f.ReadArray(Float, 3);
    if vector.None? {
      return None;
    }
    r := Some(Keyframe(time.value, vector.value));
  }

  /** The `write` of `Ms3dRotationKeyframe` and `Ms3dTranslationKeyframe`. */
  method WriteKeyframe(f: Ms3dWriter, k: Keyframe) returns (ok: bool)
    modifies f
    ensures f.written == old(f.written) + EmitKeyframe(k).bytes
    ensures ok == EmitKeyframe(k).ok
  {
    ghost var whole := EmitKeyframe(k);
    ghost var e1 := EmitScalar(Float, k.time);
    ghost var e2 := EmitArray(Float, 3, k.vector);
    // r<k>: the writes from the k-th on
    ghost var r2 := e2;
    ghost var start := f.written;
    ok := f.WriteScalar(Float, k.time);
    if !ok {
      return;
    }
    ghost var done := e1.bytes;
    assert Pending(whole, done, r2);
    Finish(whole, start, done, e2);
    ok := f.WriteArray(Float, 3, k.vector);
  }

  /** The `read` of `Ms3dJoint`. */
  method ReadJoint(f: Ms3dReader) returns (r: Option<Joint>)
    requires f.Valid()
    modifies f
    ensures f.Valid()
    ensures Outcome(r, f.Rest()) == DecodeJoint(old(f.Rest()))
  {
    var flags := f.ReadScalar(Byte);
    if flags.None? {
      return None;
    }
    var name := f.ReadString(LENGTH_NAME);
    if name.None? {
      return None;
    }
    var parent := f.ReadString(LENGTH_NAME);
    if parent.None? {
      return None;
    }
    var rotation := f.ReadArray(Float, 3);
    if rotation.None? {
      return None;
    }
    var position := f.ReadArray(Float, 3);
    if position.None? {
      return None;
    }
    var nr := f.ReadScalar(Word);
    if nr.None? {
      return None;
    }
    var nt := f.ReadScalar(Word);
    if nt.None? {
      return None;
    }
    var rks := ReadKeyframes(f, nr.value);
    if rks.None? {
      return None;
    }
    var tks := ReadKeyframes(f, nt.value);
    if tks.None? {
      return None;
    }
    r := Some(Joint(flags.value, name.value, parent.value, rotation.value, position.value,
                  rks.value, tks.value, DefaultJointEx, DefaultCommentEx));
  }

  /** The `write` of `Ms3dJoint`. */
  method WriteJoint(f: Ms3dWriter, j: Joint) returns (ok: bool)
    modifies f
    ensures f.written == old(f.written) + EmitJoint(j).bytes
    ensures ok == EmitJoint(j).ok
  {
    ghost var whole := EmitJoint(j);
    ghost var e1 := EmitScalar(Byte, j.flags);
    ghost var e2 := EmitString(LENGTH_NAME, j.name);
    ghost var e3 := EmitString(LENGTH_NAME, j.parentName);
    ghost var e4 := EmitArray(Float, 3, j.rotation);
    ghost var e5 := EmitArray(Float, 3, j.position);
    ghost var e6 := EmitScalar(Word, |j.rotationKeyframes|);
    ghost var e7 := EmitScalar(Word, |j.translationKeyframes|);
    ghost var e8 := EmitMany(EmitKeyframe, j.rotationKeyframes);
    ghost var e9 := EmitMany(EmitKeyframe, j.translationKeyframes);
    // r<k>: the writes from the k-th on
    ghost var r9 := e9;
    ghost var r8 := e8.Then(r9);
    ghost var r7 := e7.Then(r8);
    ghost var r6 := e6.Then(r7);
    ghost var r5 := e5.Then(r6);
    ghost var r4 := e4.Then(r5);
    ghost var r3 := e3.Then(r4);
    ghost var r2 := e2.Then(r3);
    ghost var start := f.written;
    ok := f.WriteScalar(Byte, j.flags);
    if !ok {
      return;
    }
    ghost var done := e1.bytes;
    assert Pending(whole, done, r2);
    Advance(whole, start, done, e2, r3);
    ok := f.WriteString(LENGTH_NAME, j.name);
    done := done + e2.bytes;
    if !ok {
      return;
    }
    Advance(whole, start, done, e3, r4);
    ok := f.WriteString(LENGTH_NAME, j.parentName);
    done := done + e3.bytes;
    if !ok {
      return;
    }
    Advance(whole, start, done, e4, r5);
    ok := f.WriteArray(Float, 3, j.rotation);
    done := done + e4.bytes;
    if !ok {
      return;
    }
    Advance(whole, start, done, e5, r6);
    ok := f.WriteArray(Float, 3, j.position);
    done := done + e5.bytes;
    if !ok {
      return;
    }
    Advance(whole, start, done, e6, r7);
    ok := f.WriteScalar(Word, |j.rotationKeyframes|);
    done := done + e6.bytes;
    if !ok {
      return;
    }
    Advance(whole, start, done, e7, r8);
    ok := f.WriteScalar(Word, |j.translationKeyframes|);
    done := done + e7.bytes;
    if !ok {
      return;
    }
    Advance(whole, start, done, e8, r9);
    ok := WriteKeyframes(f, j.rotationKeyframes);
    done := done + e8.bytes;
    if !ok {
      return;
    }
    Finish(whole, start, done, e9);
    ok := WriteKeyframes(f, j.translationKeyframes);
  }

  /** The `read` of `Ms3dCommentEx`. */
  method ReadCommentEx(f: Ms3dReader) returns (r: Option<CommentEx>)
    requires f.Valid()
    modifies f
    ensures f.Valid()
    ensures Outcome(r, f.Rest()) == DecodeCommentEx(old(f.Rest()))
  {
    var index := f.ReadScalar(DWord);
    if index.None? {
      return None;
    }
    var n := f.ReadScalar(DWord);
    if n.None? {
      return None;
    }
    var comment := f.ReadString(n.value);
    if comment.None? {
      return None;
    }
    r := Some(CommentEx(index.value, comment.value));
  }

  /** The `write` of `Ms3dCommentEx`. */
  method WriteCommentEx(f: Ms3dWriter, c: CommentEx) returns (ok: bool)
    modifies f
    ensures f.written == old(f.written) + EmitCommentEx(c).bytes
    ensures ok == EmitCommentEx(c).ok
  {
    ghost var whole := EmitCommentEx(c);
    ghost var e1 := EmitScalar(DWord, c.index);
    ghost var e2 := EmitScalar(DWord, |c.comment|);
    ghost var e3 := EmitString(|c.comment|, c.comment);
    // r<k>: the writes from the k-th on
    ghost var r3 := e3;
    ghost var r2 := e2.Then(r3);
    ghost var start := f.written;
    ok := f.WriteScalar(DWord, c.index);
    if !ok {
      return;
    }
    ghost var done := e1.bytes;
    assert Pending(whole, done, r2);
    Advance(whole, start, done, e2, r3);
    ok := f.WriteScalar(DWord, |c.comment|);
    done := done + e2.bytes;
    if !ok {
      return;
    }
    Finish(whole, start, done, e3);
    ok := f.WriteString(|c.comment|, c.comment);
  }

  /** The `read` of `Ms3dComment`. */
  method ReadComment(f: Ms3dReader) returns (r: Option<Comment>)
    requires f.Valid()
    modifies f
    ensures f.Valid()
    ensures Outcome(r, f.Rest()) == DecodeComment(old(f.Rest()))
  {
    var n := f.ReadScalar(DWord);
    if n.None? {
      return None;
    }
    var comment := f.ReadString(n.value);
    if comment.None? {
      return None;
    }
    r := Some(Comment(comment.value));
  }

  /** The `write` of `Ms3dComment`. */
  method WriteComment(f: Ms3dWriter, c: Comment) returns (ok: bool)
    modifies f
    ensures f.written == old(f.written) + EmitComment(c).bytes
    ensures ok == EmitComment(c).ok
  {
    ghost var whole := EmitComment(c);
    ghost var e1 := EmitScalar(DWord, |c.comment|);
    ghost var e2 := EmitString(|c.comment|, c.comment);
    // r<k>: the writes from the k-th on
    ghost var r2 := e2;
    ghost var start := f.written;
    ok := f.WriteScalar(DWord, |c.comment|);
    if !ok {
      return;
    }
    ghost var done := e1.bytes;
    assert Pending(whole, done, r2);
    Finish(whole, start, done, e2);
    ok := f.WriteString(|c.comment|, c.comment);
  }

  /** The `read` of `Ms3dJointEx`. */
  method ReadJointEx(f: Ms3dReader) returns (r: Option<JointEx>)
    requires f.Valid()
    modifies f
    ensures f.Valid()
    ensures Outcome(r, f.Rest()) == DecodeJointEx(old(f.Rest()))
  {
    var color := f.ReadArray(Float, 3);
    if color.None? {
      return None;
    }
    r := Some(JointEx(color.value));
  }

  /** The `read` of `Ms3dModelEx`. */
  method ReadModelEx(f: Ms3dReader) returns (r: Option<ModelEx>)
    requires f.Valid()
    modifies f
    ensures f.Valid()
    ensures Outcome(r, f.Rest()) == DecodeModelEx(old(f.Rest()))
  {
    var jointSize := f.ReadScalar(Float);
    if jointSize.None? {
      return None;
    }
    var mode := f.ReadScalar(DWord);
    if mode.None? {
      return None;
    }
    var alphaRef := f.ReadScalar(Float);
    if alphaRef.None? {
      return None;
    }
    r := Some(ModelEx(jointSize.value, mode.value, alphaRef.value));
  }

  /** The `write` of `Ms3dModelEx`. */
  method WriteModelEx(f: Ms3dWriter, ex: ModelEx) returns (ok: bool)
    modifies f
    ensures f.written == old(f.written) + EmitModelEx(ex).bytes
    ensures ok == EmitModelEx(ex).ok
  {
    ghost var whole := EmitModelEx(ex);
    ghost var e1 := EmitScalar(Float, ex.jointSize);
    ghost var e2 := EmitScalar(DWord, ex.transparencyMode);
    ghost var e3 := EmitScalar(Float, ex.alphaRef);
    // r<k>: the writes from the k-th on
    ghost var r3 := e3;
    ghost var r2 := e2.Then(r3);
    ghost var start := f.written;
    ok := f.WriteScalar(Float, ex.jointSize);
    if !ok {
      return;
    }
    ghost var done := e1.bytes;
    assert Pending(whole, done, r2);
    Advance(whole, start, done, e2, r3);
    ok := f.WriteScalar(DWord, ex.transparencyMode);
    done := done + e2.bytes;
    if !ok {
      return;
    }
    Finish(whole, start, done, e3);
    ok := f.WriteScalar(Float, ex.alphaRef);
  }

  /** The keyframe loops of `Ms3dJoint.read`: `count` keyframes, one after another. */
  method ReadKeyframes(f: Ms3dReader, count: nat) returns (r: Option<seq<Keyframe>>)
    requires f.Valid()
    modifies f
    ensures f.Valid()
    ensures Outcome(r, f.Rest()) == DecodeManyFrom(DecodeKeyframe, count, old(f.Rest()), [])
  {
    var keyframes: seq<Keyframe> := [];
    for i := 0 to count
      invariant f.Valid()
      invariant DecodeManyFrom(DecodeKeyframe, count, old(f.Rest()), [])
                == DecodeManyFrom(DecodeKeyframe, count - i, f.Rest(), keyframes)
    {
      ghost var before := f.Rest();
      DecodeManyNext(DecodeKeyframe, count - i, before, keyframes);
      var k := ReadKeyframe(f);
      if k.None? {
        return None;
      }
      keyframes := keyframes + [k.value];
    }
    r := Some(keyframes);
  }

  /** The keyframe loops of `Ms3dJoint.write`: every keyframe in order. */
  method WriteKeyframes(f: Ms3dWriter, keyframes: seq<Keyframe>) returns (ok: bool)
    modifies f
    ensures f.written == old(f.written) + EmitMany(EmitKeyframe, keyframes).bytes
    ensures ok == EmitMany(EmitKeyframe, keyframes).ok
  {
    ghost var done: seq<uint8> := [];
    ThenNothing(EmitMany(EmitKeyframe, keyframes));
    for i := 0 to |keyframes|
      invariant f.written == old(f.written) + done
      invariant EmitMany(EmitKeyframe, keyframes)
                == Emitted(done, true).Then(EmitMany(EmitKeyframe, keyframes[i..]))
    {
      assert keyframes[i..][1..] == keyframes[i + 1..];
      ghost var step := EmitKeyframe(keyframes[i]);
      WriteStep(old(f.written), done, step, EmitMany(EmitKeyframe, keyframes[i + 1..]));
      ok := WriteKeyframe(f, keyframes[i]);
      done := done + step.bytes;
      if !ok {
        return;
      }
    }
    ThenNothing(Emitted(done, true));
    ok := true;
  }

  /** The `read` of `Ms3dVertexEx1` .. `Ms3dVertexEx3`, the class chosen by the sub-version. */
  method ReadVertexEx(f: Ms3dReader, version: int) returns (r: Option<VertexEx>)
    requires 1 <= version <= 3
    requires f.Valid()
    modifies f
    ensures f.Valid()
    ensures Outcome(r, f.Rest()) == DecodeVertexEx(version, old(f.Rest()))
  {
    var boneIds := f.ReadArray(SByte, 3);
    if boneIds.None? {
      return None;
    }
    var weights := f.ReadArray(Byte, 3);
    if weights.None? {
      return None;
    }
    if version == 1 {
      return Some(VertexEx1(boneIds.value, weights.value));
    }
    var extra := f.ReadScalar(DWord);
    if extra.None? {
      return None;
    }
    if version == 2 {
      r := Some(VertexEx2(boneIds.value, weights.value, extra.value));
    } else {
      r := Some(VertexEx3(boneIds.value, weights.value, extra.value));
    }
  }

  /** The `write` of `Ms3dVertexEx1` .. `Ms3dVertexEx3`: the extra value only from sub-version 2 on. */
  method WriteVertexEx(f: Ms3dWriter, ex: VertexEx) returns (ok: bool)
    modifies f
    ensures f.written == old(f.written) + EmitVertexEx(ex).bytes
    ensures ok == EmitVertexEx(ex).ok
  {
    ghost var whole := EmitVertexEx(ex);
    ghost var e1 := EmitArray(SByte, 3, ex.boneIds);
    ghost var e2 := EmitArray(Byte, 3, ex.weights);
    ghost var start := f.written;
    ok := f.WriteArray(SByte, 3, ex.boneIds);
    if !ok {
      return;
    }
    if ex.VertexEx1? {
      assert Pending(whole, e1.bytes, e2);
      Finish(whole, start, e1.bytes, e2);
      ok := f.WriteArray(Byte, 3, ex.weights);
      return;
    }
    ghost var e3 := EmitScalar(DWord, ex.extra);
    ThenAssociative(e1, e2, e3);
    assert Pending(whole, e1.bytes, e2.Then(e3));
    Advance(whole, start, e1.bytes, e2, e3);
    ok := f.WriteArray(Byte, 3, ex.weights);
    if !ok {
      return;
    }
    Finish(whole, start, e1.bytes + e2.bytes, e3);
    ok := f.WriteScalar(DWord, ex.extra);
  }

  /** The `write` of `Ms3dJointEx`. */
  method WriteJointEx(f: Ms3dWriter, ex: JointEx) returns (ok: bool)
    modifies f
    ensures f.written == old(f.written) + EmitJointEx(ex).bytes
    ensures ok == EmitJointEx(ex).ok
  {
    ok := f.WriteArray(Float, 3, ex.color);
  }
}
