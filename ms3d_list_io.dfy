/**
 * The loops of `Ms3dModel.read` and `Ms3dModel.write` over the record lists,
 * each proved to read or write what the list description says.
 */
module Ms3dListIo {
  import opened Wrappers
  import opened Ms3dIo
  import opened Ms3dRecords
  import opened Ms3dRecordIo

  /** One turn of the vertex loop: the record read, and the list read so far, go on as the whole list reads. */
  method ReadVertexAfter(f: Ms3dReader, ghost total: Decoded<seq<Vertex>>, ghost left: nat, ghost vertices: seq<Vertex>)
    returns (x: Option<Vertex>)
    requires f.Valid() && left > 0 && total == DecodeManyFrom(DecodeVertex, left, f.Rest(), vertices)
    modifies f
    ensures f.Valid()
    ensures x.None? ==> total == Truncated
    ensures x.Some? ==> total == DecodeManyFrom(DecodeVertex, left - 1, f.Rest(), vertices + [x.value])
  {
    ghost var before := f.Rest();
    x := ReadVertex(f);
    ghost var after := f.Rest();
    DecodeManyStep(DecodeVertex, left, before, vertices, x, after);
  }

  /** `Ms3dModel.read`: the vertex loop. */
  method ReadVertices(f: Ms3dReader, count: nat) returns (r: Option<seq<Vertex>>)
    requires f.Valid()
    modifies f
    ensures f.Valid()
    ensures Outcome(r, f.Rest()) == DecodeManyFrom(DecodeVertex, count, old(f.Rest()), [])
  {
    var vertices: seq<Vertex> := [];
    ghost var left := count;
    ghost var total := DecodeManyFrom(DecodeVertex, count, f.Rest(), []);
    for i := 0 to count
      invariant f.Valid() && left == count - i
      invariant total == DecodeManyFrom(DecodeVertex, left, f.Rest(), vertices)
    {
      var x := ReadVertexAfter(f, total, left, vertices);
      if x.None? {
        return None;
      }
      vertices := vertices + [x.value];
      left := left - 1;
    }
    r := Some(vertices);
  }

  /** One turn of the triangle loop: the record read, and the list read so far, go on as the whole list reads. */
  method ReadTriangleAfter(f: Ms3dReader, ghost total: Decoded<seq<Triangle>>, ghost left: nat, ghost triangles: seq<Triangle>)
    returns (x: Option<Triangle>)
    requires f.Valid() && left > 0 && total == DecodeManyFrom(DecodeTriangle, left, f.Rest(), triangles)
    modifies f
    ensures f.Valid()
    ensures x.None? ==> total == Truncated
    ensures x.Some? ==> total == DecodeManyFrom(DecodeTriangle, left - 1, f.Rest(), triangles + [x.value])
  {
    ghost var before := f.Rest();
    x := ReadTriangle(f);
    ghost var after := f.Rest();
    DecodeManyStep(DecodeTriangle, left, before, triangles, x, after);
  }

  /** `Ms3dModel.read`: the triangle loop. */
  method ReadTriangles(f: Ms3dReader, count: nat) returns (r: Option<seq<Triangle>>)
    requires f.Valid()
    modifies f
    ensures f.Valid()
    ensures Outcome(r, f.Rest()) == DecodeManyFrom(DecodeTriangle, count, old(f.Rest()), [])
  {
    var triangles: seq<Triangle> := [];
    ghost var left := count;
    ghost var total := DecodeManyFrom(DecodeTriangle, count, f.Rest(), []);
    for i := 0 to count
      invariant f.Valid() && left == count - i
      invariant total == DecodeManyFrom(DecodeTriangle, left, f.Rest(), triangles)
    {
      var x := ReadTriangleAfter(f, total, left, triangles);
      if x.None? {
        return None;
      }
      triangles := triangles + [x.value];
      left := left - 1;
    }
    r := Some(triangles);
  }

  /** One turn of the group loop: the record read, and the list read so far, go on as the whole list reads. */
  method ReadGroupAfter(f: Ms3dReader, ghost total: Decoded<seq<Group>>, ghost left: nat, ghost groups: seq<Group>)
    returns (x: Option<Group>)
    requires f.Valid() && left > 0 && total == DecodeManyFrom(DecodeGroup, left, f.Rest(), groups)
    modifies f
    ensures f.Valid()
    ensures x.None? ==> total == Truncated
    ensures x.Some? ==> total == DecodeManyFrom(DecodeGroup, left - 1, f.Rest(), groups + [x.value])
  {
    ghost var before := f.Rest();
    x := ReadGroup(f);
    ghost var after := f.Rest();
    DecodeManyStep(DecodeGroup, left, before, groups, x, after);
  }

  /** `Ms3dModel.read`: the group loop. */
  method ReadGroups(f: Ms3dReader, count: nat) returns (r: Option<seq<Group>>)
    requires f.Valid()
    modifies f
    ensures f.Valid()
    ensures Outcome(r, f.Rest()) == DecodeManyFrom(DecodeGroup, count, old(f.Rest()), [])
  {
    var groups: seq<Group> := [];
    ghost var left := count;
    ghost var total := DecodeManyFrom(DecodeGroup, count, f.Rest(), []);
    for i := 0 to count
      invariant f.Valid() && left == count - i
      invariant total == DecodeManyFrom(DecodeGroup, left, f.Rest(), groups)
    {
      var x := ReadGroupAfter(f, total, left, groups);
      if x.None? {
        return None;
      }
      groups := groups + [x.value];
      left := left - 1;
    }
    r := Some(groups);
  }

  /** One turn of the material loop: the record read, and the list read so far, go on as the whole list reads. */
  method ReadMaterialAfter(f: Ms3dReader, ghost total: Decoded<seq<Material>>, ghost left: nat, ghost materials: seq<Material>)
    returns (x: Option<Material>)
    requires f.Valid() && left > 0 && total == DecodeManyFrom(DecodeMaterial, left, f.Rest(), materials)
    modifies f
    ensures f.Valid()
    ensures x.None? ==> total == Truncated
    ensures x.Some? ==> total == DecodeManyFrom(DecodeMaterial, left - 1, f.Rest(), materials + [x.value])
  {
    ghost var before := f.Rest();
    x := ReadMaterial(f);
    ghost var after := f.Rest();
    DecodeManyStep(DecodeMaterial, left, before, materials, x, after);
  }

  /** `Ms3dModel.read`: the material loop. */
  method ReadMaterials(f: Ms3dReader, count: nat) returns (r: Option<seq<Material>>)
    requires f.Valid()
    modifies f
    ensures f.Valid()
    ensures Outcome(r, f.Rest()) == DecodeManyFrom(DecodeMaterial, count, old(f.Rest()), [])
  {
    var materials: seq<Material> := [];
    ghost var left := count;
    ghost var total := DecodeManyFrom(DecodeMaterial, count, f.Rest(), []);
    for i := 0 to count
      invariant f.Valid() && left == count - i
      invariant total == DecodeManyFrom(DecodeMaterial, left, f.Rest(), materials)
    {
      var x := ReadMaterialAfter(f, total, left, materials);
      if x.None? {
        return None;
      }
      materials := materials + [x.value];
      left := left - 1;
    }
    r := Some(materials);
  }

  /** One turn of the joint loop: the record read, and the list read so far, go on as the whole list reads. */
  method ReadJointAfter(f: Ms3dReader, ghost total: Decoded<seq<Joint>>, ghost left: nat, ghost joints: seq<Joint>)
    returns (x: Option<Joint>)
    requires f.Valid() && left > 0 && total == DecodeManyFrom(DecodeJoint, left, f.Rest(), joints)
    modifies f
    ensures f.Valid()
    ensures x.None? ==> total == Truncated
    ensures x.Some? ==> total == DecodeManyFrom(DecodeJoint, left - 1, f.Rest(), joints + [x.value])
  {
    ghost var before := f.Rest();
    x := ReadJoint(f);
    ghost var after := f.Rest();
    DecodeManyStep(DecodeJoint, left, before, joints, x, after);
  }

  /** `Ms3dModel.read`: the joint loop. */
  method ReadJoints(f: Ms3dReader, count: nat) returns (r: Option<seq<Joint>>)
    requires f.Valid()
    modifies f
    ensures f.Valid()
    ensures Outcome(r, f.Rest()) == DecodeManyFrom(DecodeJoint, count, old(f.Rest()), [])
  {
    var joints: seq<Joint> := [];
    ghost var left := count;
    ghost var total := DecodeManyFrom(DecodeJoint, count, f.Rest(), []);
    for i := 0 to count
      invariant f.Valid() && left == count - i
      invariant total == DecodeManyFrom(DecodeJoint, left, f.Rest(), joints)
    {
      var x := ReadJointAfter(f, total, left, joints);
      if x.None? {
        return None;
      }
      joints := joints + [x.value];
      left := left - 1;
    }
    r := Some(joints);
  }

  /** `Ms3dModel.write`: the vertex loop. */
  method WriteVertices(f: Ms3dWriter, vertices: seq<Vertex>) returns (ok: bool)
    modifies f
    ensures f.written == old(f.written) + EmitMany(EmitVertex, vertices).bytes
    ensures ok == EmitMany(EmitVertex, vertices).ok
  {
    ghost var done: seq<uint8> := [];
    ThenNothing(EmitMany(EmitVertex, vertices));
    for i := 0 to |vertices|
      invariant f.written == old(f.written) + done
      invariant EmitMany(EmitVertex, vertices) == Emitted(done, true).Then(EmitMany(EmitVertex, vertices[i..]))
    {
      assert vertices[i..][1..] == vertices[i + 1..];
      ghost var step := EmitVertex(vertices[i]);
      WriteStep(old(f.written), done, step, EmitMany(EmitVertex, vertices[i + 1..]));
      ok := WriteVertex(f, vertices[i]);
      done := done + step.bytes;
      if !ok {
        return;
      }
    }
    ThenNothing(Emitted(done, true));
    ok := true;
  }

  /** `Ms3dModel.write`: the triangle loop. */
  method WriteTriangles(f: Ms3dWriter, triangles: seq<Triangle>) returns (ok: bool)
    modifies f
    ensures f.written == old(f.written) + EmitMany(EmitTriangle, triangles).bytes
    ensures ok == EmitMany(EmitTriangle, triangles).ok
  {
    ghost var done: seq<uint8> := [];
    ThenNothing(EmitMany(EmitTriangle, triangles));
    for i := 0 to |triangles|
      invariant f.written == old(f.written) + done
      invariant EmitMany(EmitTriangle, triangles) == Emitted(done, true).Then(EmitMany(EmitTriangle, triangles[i..]))
    {
      assert triangles[i..][1..] == triangles[i + 1..];
      ghost var step := EmitTriangle(triangles[i]);
      WriteStep(old(f.written), done, step, EmitMany(EmitTriangle, triangles[i + 1..]));
      ok := WriteTriangle(f, triangles[i]);
      done := done + step.bytes;
      if !ok {
        return;
      }
    }
    ThenNothing(Emitted(done, true));
    ok := true;
  }

  /** `Ms3dModel.write`: the group loop. */
  method WriteGroups(f: Ms3dWriter, groups: seq<Group>) returns (ok: bool)
    modifies f
    ensures f.written == old(f.written) + EmitMany(EmitGroup, groups).bytes
    ensures ok == EmitMany(EmitGroup, groups).ok
  {
    ghost var done: seq<uint8> := [];
    ThenNothing(EmitMany(EmitGroup, groups));
    for i := 0 to |groups|
      invariant f.written == old(f.written) + done
      invariant EmitMany(EmitGroup, groups) == Emitted(done, true).Then(EmitMany(EmitGroup, groups[i..]))
    {
      assert groups[i..][1..] == groups[i + 1..];
      ghost var step := EmitGroup(groups[i]);
      WriteStep(old(f.written), done, step, EmitMany(EmitGroup, groups[i + 1..]));
      ok := WriteGroup(f, groups[i]);
      done := done + step.bytes;
      if !ok {
        return;
      }
    }
    ThenNothing(Emitted(done, true));
    ok := true;
  }

  /** `Ms3dModel.write`: the material loop. */
  method WriteMaterials(f: Ms3dWriter, materials: seq<Material>) returns (ok: bool)
    modifies f
    ensures f.written == old(f.written) + EmitMany(EmitMaterial, materials).bytes
    ensures ok == EmitMany(EmitMaterial, materials).ok
  {
    ghost var done: seq<uint8> := [];
    ThenNothing(EmitMany(EmitMaterial, materials));
    for i := 0 to |materials|
      invariant f.written == old(f.written) + done
      invariant EmitMany(EmitMaterial, materials) == Emitted(done, true).Then(EmitMany(EmitMaterial, materials[i..]))
    {
      assert materials[i..][1..] == materials[i + 1..];
      ghost var step := EmitMaterial(materials[i]);
      WriteStep(old(f.written), done, step, EmitMany(EmitMaterial, materials[i + 1..]));
      ok := WriteMaterial(f, materials[i]);
      done := done + step.bytes;
      if !ok {
        return;
      }
    }
    ThenNothing(Emitted(done, true));
    ok := true;
  }

  /** `Ms3dModel.write`: the joint loop. */
  method WriteJoints(f: Ms3dWriter, joints: seq<Joint>) returns (ok: bool)
    modifies f
    ensures f.written == old(f.written) + EmitMany(EmitJoint, joints).bytes
    ensures ok == EmitMany(EmitJoint, joints).ok
  {
    ghost var done: seq<uint8> := [];
    ThenNothing(EmitMany(EmitJoint, joints));
    for i := 0 to |joints|
      invariant f.written == old(f.written) + done
      invariant EmitMany(EmitJoint, joints) == Emitted(done, true).Then(EmitMany(EmitJoint, joints[i..]))
    {
      assert joints[i..][1..] == joints[i + 1..];
      ghost var step := EmitJoint(joints[i]);
      WriteStep(old(f.written), done, step, EmitMany(EmitJoint, joints[i + 1..]));
      ok := WriteJoint(f, joints[i]);
      done := done + step.bytes;
      if !ok {
        return;
      }
    }
    ThenNothing(Emitted(done, true));
    ok := true;
  }

  /** `Ms3dModel.write`: a comment loop. */
  method WriteCommentExs(f: Ms3dWriter, comments: seq<CommentEx>) returns (ok: bool)
    modifies f
    ensures f.written == old(f.written) + EmitMany(EmitCommentEx, comments).bytes
    ensures ok == EmitMany(EmitCommentEx, comments).ok
  {
    ghost var done: seq<uint8> := [];
    ThenNothing(EmitMany(EmitCommentEx, comments));
    for i := 0 to |comments|
      invariant f.written == old(f.written) + done
      invariant EmitMany(EmitCommentEx, comments) == Emitted(done, true).Then(EmitMany(EmitCommentEx, comments[i..]))
    {
      assert comments[i..][1..] == comments[i + 1..];
      ghost var step := EmitCommentEx(comments[i]);
      WriteStep(old(f.written), done, step, EmitMany(EmitCommentEx, comments[i + 1..]));
      ok := WriteCommentEx(f, comments[i]);
      done := done + step.bytes;
      if !ok {
        return;
      }
    }
    ThenNothing(Emitted(done, true));
    ok := true;
  }

  /** `Ms3dModel.write`: the extra vertex loop. */
  method WriteVertexExs(f: Ms3dWriter, records: seq<VertexEx>) returns (ok: bool)
    modifies f
    ensures f.written == old(f.written) + EmitMany(EmitVertexEx, records).bytes
    ensures ok == EmitMany(EmitVertexEx, records).ok
  {
    ghost var done: seq<uint8> := [];
    ThenNothing(EmitMany(EmitVertexEx, records));
    for i := 0 to |records|
      invariant f.written == old(f.written) + done
      invariant EmitMany(EmitVertexEx, records) == Emitted(done, true).Then(EmitMany(EmitVertexEx, records[i..]))
    {
      assert records[i..][1..] == records[i + 1..];
      ghost var step := EmitVertexEx(records[i]);
      WriteStep(old(f.written), done, step, EmitMany(EmitVertexEx, records[i + 1..]));
      ok := WriteVertexEx(f, records[i]);
      done := done + step.bytes;
      if !ok {
        return;
      }
    }
    ThenNothing(Emitted(done, true));
    ok := true;
  }

  /** `Ms3dModel.write`: the extra joint loop. */
  method WriteJointExs(f: Ms3dWriter, records: seq<JointEx>) returns (ok: bool)
    modifies f
    ensures f.written == old(f.written) + EmitMany(EmitJointEx, records).bytes
    ensures ok == EmitMany(EmitJointEx, records).ok
  {
    ghost var done: seq<uint8> := [];
    ThenNothing(EmitMany(EmitJointEx, records));
    for i := 0 to |records|
      invariant f.written == old(f.written) + done
      invariant EmitMany(EmitJointEx, records) == Emitted(done, true).Then(EmitMany(EmitJointEx, records[i..]))
    {
      assert records[i..][1..] == records[i + 1..];
      ghost var step := EmitJointEx(records[i]);
      WriteStep(old(f.written), done, step, EmitMany(EmitJointEx, records[i + 1..]));
      ok := WriteJointEx(f, records[i]);
      done := done + step.bytes;
      if !ok {
        return;
      }
    }
    ThenNothing(Emitted(done, true));
    ok := true;
  }
}
