# Blender add-ons: MilkShape 3D codec and companions

This project models, in Dafny, the core of a group of Blender add-ons and proves properties of it.

**MilkShape 3D (`io_scene_ms3d`).** The main part is the binary codec for MilkShape 3D `.ms3d` model files.
- **Scalar and string I/O.** Little-endian scalars are read and written, with the range each `pack` accepts. Fixed-length string fields are padded with zero bytes on writing. On reading, a field is cut at the first zero byte, and any byte outside 32..127 becomes a space.
- **Records.** Every record has its read and write: header, vertex, triangle, group, material, the rotation and translation keyframes, joint, the indexed and model comments, and the three sub-versions of the extra vertex record. There are also the extra joint and the extra model records.
- **The model.** The `Ms3dModel` object holds the lists and reads a whole file into itself. Its required part, up to the frame count, must be complete. Its optional part holds joints, comments and extra data. That part is read section by section until the file ends. The object then resets every value whose section it did not reach.
- **Writing and limits.** Writing swallows any failure in the optional part. `is_valid` checks the element counts against the format's limits.
- **UI conversions.** The add-on's interface converts the flag bytes to sets of names and back. It also creates and removes groups in its property group.

**The other add-ons:**
- **Marmalade exporter.** The geometry collector builds vertex streams and polygons per material, with per-object base offsets for merged meshes. Each vertex is filed under a skin key: the bit set of the vertex groups it uses.
- **PDB importer.** The ATOM/HETATM/TER loop, the de-duplication of atom types, and the CONECT loop that collects sticks.
- **Curve simplification.** `binom`, the Ramer–Douglas–Peucker refinement loop, the distance-and-curvature selection of `simplypoly`, and `vertsToPoints`.
- **Node efficiency tools.** The batch change of Mix and Math nodes, with NEXT and PREV cycling.
- **3D-print toolbox.** `clean_float`, which trims trailing zeros.
- **STL exporter.** The split of quads into two triangles.

Methods work on reader and writer objects (`Ms3dReader`, `Ms3dWriter`), on the model object (`Ms3dModel`) and on the Marmalade classes. Each method is proved against a function over byte sequences or values, and the properties are proved about those functions. The main results:
- `ModelRoundTrip`: a writable model, written with the corrected comment sections (see ## Findings) and read back, is the same model. A writable model is one whose records are all in range and whose comments index their owners.
- The group comment finding below.

## Model

| member | source | states |
|---|---|---|
| Ms3dIo.LittleEndianRoundTrip | io_scene_ms3d/ms3d_spec.py:177-197 | the little-endian bytes of a value below 256^n have n bytes and decode back to the value |
| Ms3dIo.EmitScalar | io_scene_ms3d/ms3d_spec.py:161-208 | an in-range value is written as exactly its size in bytes; an out-of-range one fails and writes nothing |
| Ms3dIo.DecodeScalar | io_scene_ms3d/ms3d_spec.py:155-203 | a read fails exactly when fewer than the scalar's size bytes remain; otherwise it consumes that many and yields an in-range value |
| Ms3dIo.ScalarRoundTrip | io_scene_ms3d/ms3d_spec.py:155-208 | reading back a written in-range scalar gives the value and leaves the bytes after it |
| Ms3dIo.SignedByte | io_scene_ms3d/ms3d_spec.py:166-170 | a signed byte is the first byte, less 256 from 128 on |
| Ms3dIo.CharOfByte | io_scene_ms3d/ms3d_spec.py:249-259 | the character of a non-zero byte always lies in 32..127, and bytes 32..127 keep their own character (the others become a space) |
| Ms3dIo.TextOf | io_scene_ms3d/ms3d_spec.py:244-265 | the text of a field has no more characters than the field has bytes |
| Ms3dIo.TextOfShape | io_scene_ms3d/ms3d_spec.py:244-265 | the text is the mapped characters of exactly the bytes before the first zero byte |
| Ms3dIo.DecodeString | io_scene_ms3d/ms3d_spec.py:244-265 | a string read fails exactly when fewer than `length` bytes remain; otherwise it consumes exactly `length` bytes, and its text is that of the field |
| Ms3dIo.EmitString | io_scene_ms3d/ms3d_spec.py:268-285 | a string write emits at most `length` bytes, and all `length` when it succeeds |
| Ms3dIo.EmitStringShape | io_scene_ms3d/ms3d_spec.py:268-285 | a string write succeeds exactly when every code modulo 255 fits a signed byte; it then emits the codes followed by zero padding |
| Ms3dIo.StringRoundTrip | io_scene_ms3d/ms3d_spec.py:244-285 | text whose characters lie in 32..127, of at most `length` characters without zeros reads back as itself and leaves the following bytes |
| Ms3dIo.TextOfEmitString | io_scene_ms3d/ms3d_spec.py:244-285 | the field written for such a text has that text |
| Ms3dIo.DecodeArrayShape | io_scene_ms3d/ms3d_spec.py:210-217 | a successful array read holds `count` in-range values and consumes `count` scalars |
| Ms3dIo.EmitArraySize | io_scene_ms3d/ms3d_spec.py:219-224 | a successful array write of `count` values emits `count` scalars |
| Ms3dIo.ArrayRoundTrip | io_scene_ms3d/ms3d_spec.py:210-224 | `count` in-range values written and read back are the same values, with the rest of the input left |
| Ms3dIo.EmitArray2Size | io_scene_ms3d/ms3d_spec.py:236-241 | a successful matrix write emits `count * count2` scalars |
| Ms3dIo.Array2RoundTrip | io_scene_ms3d/ms3d_spec.py:226-241 | a matrix of in-range rows of `count2` values reads back unchanged |
| Ms3dIo.ArrayReadsBack | io_scene_ms3d/ms3d_spec.py:210-224 | `read_array` after `write_array` gives the array and the rest |
| Ms3dIo.Array2ReadsBack | io_scene_ms3d/ms3d_spec.py:226-241 | `read_array2` after `write_array2` gives the matrix and the rest |
| Ms3dIo.Ms3dReader.constructor | io_scene_ms3d/ms3d_spec.py:155-159 | a reader over a file's bytes starts at the first one |
| Ms3dIo.Ms3dReader.ReadScalar | io_scene_ms3d/ms3d_spec.py:155-203 | result and bytes left are those of `DecodeScalar`; a short read leaves the file at its end |
| Ms3dIo.Ms3dReader.ReadString | io_scene_ms3d/ms3d_spec.py:244-265 | the byte loop gives the text and bytes left of `DecodeString` |
| Ms3dIo.Ms3dReader.ReadArray | io_scene_ms3d/ms3d_spec.py:210-217 | the loop gives the values and bytes left of the array decoder |
| Ms3dIo.Ms3dReader.ReadArray2 | io_scene_ms3d/ms3d_spec.py:226-234 | the nested loop gives the matrix and bytes left of the matrix decoder |
| Ms3dIo.Ms3dWriter.constructor | io_scene_ms3d/ms3d_spec.py:161-164 | a new writer has written nothing |
| Ms3dIo.Ms3dWriter.WriteScalar | io_scene_ms3d/ms3d_spec.py:161-208 | appends the bytes of `EmitScalar`, and succeeds exactly when it does |
| Ms3dIo.Ms3dWriter.WriteString | io_scene_ms3d/ms3d_spec.py:268-285 | the byte loop appends the bytes of `EmitString`, stopping at the first code that does not fit |
| Ms3dIo.Ms3dWriter.WriteArray | io_scene_ms3d/ms3d_spec.py:219-224 | appends the bytes of the array encoder, stopping at the first value out of range |
| Ms3dIo.Ms3dWriter.WriteArray2 | io_scene_ms3d/ms3d_spec.py:236-241 | appends the bytes of the matrix encoder, failing at a missing row |
| Ms3dIo.ReadStringStep | io_scene_ms3d/ms3d_spec.py:250-263 | one signed byte extends the text only while no zero byte has been read |
| Ms3dIo.EmitArray2Step | io_scene_ms3d/ms3d_spec.py:236-241 | a missing row fails the matrix write; otherwise that row is written before the rest |
| Ms3dRecords.DerivedWeights | io_scene_ms3d/ms3d_spec.py:1154-1178 | with all three weights 0 the bone weight is 100 and the three derived weights are 0; otherwise the bone weight is the stored weights, the first two derived weights are the first two stored ones, and the third makes the four sum to 100 |
| Ms3dRecords.VersionOf | io_scene_ms3d/ms3d_spec.py:1778-1796 | each extra vertex record class belongs to exactly one of the sub-versions 1..3 |
| Ms3dRecords.ManyRoundTrip | io_scene_ms3d/ms3d_spec.py:1657-1687 | a list of records that each read back reads back as a whole, leaving the rest |
| Ms3dRecords.EmitManySize | io_scene_ms3d/ms3d_spec.py:1865-1885 | records that each write `size` bytes write `size` bytes per record |
| Ms3dRecords.HeaderSize | io_scene_ms3d/ms3d_spec.py:323-330 | a valid header writes 14 bytes |
| Ms3dRecords.VertexSize | io_scene_ms3d/ms3d_spec.py:400-411 | a valid vertex writes 15 bytes |
| Ms3dRecords.TriangleSize | io_scene_ms3d/ms3d_spec.py:482-499 | a valid triangle writes 70 bytes |
| Ms3dRecords.GroupSize | io_scene_ms3d/ms3d_spec.py:566-582 | a valid group writes 36 bytes plus two per triangle index |
| Ms3dRecords.MaterialSize | io_scene_ms3d/ms3d_spec.py:710-733 | a valid material writes 361 bytes |
| Ms3dRecords.KeyframeSize | io_scene_ms3d/ms3d_spec.py:764-771 | a valid keyframe writes 16 bytes |
| Ms3dRecords.KeyframesSize | io_scene_ms3d/ms3d_spec.py:952-955 | a list of valid keyframes writes 16 bytes per keyframe |
| Ms3dRecords.JointSize | io_scene_ms3d/ms3d_spec.py:927-955 | a valid joint writes 93 bytes plus 16 per keyframe |
| Ms3dRecords.CommentExSize | io_scene_ms3d/ms3d_spec.py:992-1001 | an indexed comment writes 8 bytes plus its text |
| Ms3dRecords.CommentSize | io_scene_ms3d/ms3d_spec.py:1034-1041 | a model comment writes 4 bytes plus its text |
| Ms3dRecords.VertexExSize | io_scene_ms3d/ms3d_spec.py:1105-1276 | an extra vertex record writes 6 bytes for sub-version 1 and 10 for sub-versions 2 and 3 |
| Ms3dRecords.JointExSize | io_scene_ms3d/ms3d_spec.py:1301-1306 | an extra joint record writes 12 bytes |
| Ms3dRecords.ModelExSize | io_scene_ms3d/ms3d_spec.py:1336-1345 | extra model data writes 12 bytes |
| Ms3dRecords.HeaderRoundTrip | io_scene_ms3d/ms3d_spec.py:323-330 | a valid header reads back unchanged, leaving the rest |
| Ms3dRecords.VertexRoundTrip | io_scene_ms3d/ms3d_spec.py:400-411 | a valid vertex reads back with the default extra record, since that record is not part of it |
| Ms3dRecords.NormalsReadBack | io_scene_ms3d/ms3d_spec.py:482-499 | the three vertex normals of a triangle read back |
| Ms3dRecords.TriangleRoundTrip | io_scene_ms3d/ms3d_spec.py:482-499 | a valid triangle reads back unchanged |
| Ms3dRecords.GroupRoundTrip | io_scene_ms3d/ms3d_spec.py:566-582 | a valid group reads back with the default comment |
| Ms3dRecords.MaterialRoundTrip | io_scene_ms3d/ms3d_spec.py:710-733 | a valid material reads back with the default comment |
| Ms3dRecords.KeyframeRoundTrip | io_scene_ms3d/ms3d_spec.py:764-771 | a valid keyframe reads back unchanged |
| Ms3dRecords.KeyframesRoundTrip | io_scene_ms3d/ms3d_spec.py:933-955 | a list of valid keyframes reads back unchanged |
| Ms3dRecords.JointRoundTrip | io_scene_ms3d/ms3d_spec.py:927-955 | a valid joint reads back with the default extra record and comment |
| Ms3dRecords.CommentExRoundTrip | io_scene_ms3d/ms3d_spec.py:992-1001 | a valid indexed comment reads back unchanged |
| Ms3dRecords.CommentRoundTrip | io_scene_ms3d/ms3d_spec.py:1034-1041 | a valid model comment reads back unchanged |
| Ms3dRecords.VertexExRoundTrip | io_scene_ms3d/ms3d_spec.py:1105-1276 | a valid extra vertex record, read with its own sub-version, reads back unchanged |
| Ms3dRecords.JointExRoundTrip | io_scene_ms3d/ms3d_spec.py:1301-1306 | a valid extra joint record reads back unchanged |
| Ms3dRecords.ModelExRoundTrip | io_scene_ms3d/ms3d_spec.py:1336-1345 | valid extra model data reads back unchanged |
| Ms3dRecordIo.ReadHeader | io_scene_ms3d/ms3d_spec.py:323-327 | result and bytes left are those of the header decoder |
| Ms3dRecordIo.WriteHeader | io_scene_ms3d/ms3d_spec.py:328-330 | appends the bytes of the header encoder and succeeds exactly when it does |
| Ms3dRecordIo.ReadVertex | io_scene_ms3d/ms3d_spec.py:400-405 | as the vertex decoder |
| Ms3dRecordIo.WriteVertex | io_scene_ms3d/ms3d_spec.py:407-411 | as the vertex encoder |
| Ms3dRecordIo.ReadTriangle | io_scene_ms3d/ms3d_spec.py:482-490 | as the triangle decoder |
| Ms3dRecordIo.WriteTriangle | io_scene_ms3d/ms3d_spec.py:492-499 | as the triangle encoder |
| Ms3dRecordIo.ReadGroup | io_scene_ms3d/ms3d_spec.py:566-573 | as the group decoder, the index count giving the array length |
| Ms3dRecordIo.WriteGroup | io_scene_ms3d/ms3d_spec.py:575-582 | as the group encoder, which writes the triangle count before the indices |
| Ms3dRecordIo.ReadMaterial | io_scene_ms3d/ms3d_spec.py:710-721 | as the material decoder |
| Ms3dRecordIo.WriteMaterial | io_scene_ms3d/ms3d_spec.py:723-733 | as the material encoder |
| Ms3dRecordIo.ReadKeyframe | io_scene_ms3d/ms3d_spec.py:764-767 | as the keyframe decoder |
| Ms3dRecordIo.WriteKeyframe | io_scene_ms3d/ms3d_spec.py:769-771 | as the keyframe encoder |
| Ms3dRecordIo.ReadJoint | io_scene_ms3d/ms3d_spec.py:927-942 | as the joint decoder, the two counts giving the keyframe loops |
| Ms3dRecordIo.WriteJoint | io_scene_ms3d/ms3d_spec.py:944-955 | as the joint encoder, which writes both keyframe counts |
| Ms3dRecordIo.ReadKeyframes | io_scene_ms3d/ms3d_spec.py:935-941 | the keyframe loop reads `count` keyframes as the list decoder does |
| Ms3dRecordIo.WriteKeyframes | io_scene_ms3d/ms3d_spec.py:952-955 | the keyframe loop writes every keyframe in order |
| Ms3dRecordIo.ReadCommentEx | io_scene_ms3d/ms3d_spec.py:992-996 | as the indexed comment decoder; the length field sizes the text |
| Ms3dRecordIo.WriteCommentEx | io_scene_ms3d/ms3d_spec.py:998-1001 | as the indexed comment encoder |
| Ms3dRecordIo.ReadComment | io_scene_ms3d/ms3d_spec.py:1034-1037 | as the model comment decoder |
| Ms3dRecordIo.WriteComment | io_scene_ms3d/ms3d_spec.py:1039-1041 | as the model comment encoder |
| Ms3dRecordIo.ReadVertexEx | io_scene_ms3d/ms3d_spec.py:1105-1276 | as the extra vertex decoder: bone ids and weights, then the extra value from sub-version 2 on |
| Ms3dRecordIo.WriteVertexEx | io_scene_ms3d/ms3d_spec.py:1105-1276 | as the extra vertex encoder |
| Ms3dRecordIo.ReadJointEx | io_scene_ms3d/ms3d_spec.py:1301-1303 | as the extra joint decoder |
| Ms3dRecordIo.WriteJointEx | io_scene_ms3d/ms3d_spec.py:1305-1306 | as the extra joint encoder |
| Ms3dRecordIo.ReadModelEx | io_scene_ms3d/ms3d_spec.py:1336-1340 | as the extra model decoder |
| Ms3dRecordIo.WriteModelEx | io_scene_ms3d/ms3d_spec.py:1342-1345 | as the extra model encoder |
| Ms3dListIo.ReadVertices | io_scene_ms3d/ms3d_spec.py:1657-1663 | the vertex loop gives the list and bytes left of the list decoder, failing at a truncated record |
| Ms3dListIo.ReadTriangles | io_scene_ms3d/ms3d_spec.py:1665-1671 | likewise for triangles |
| Ms3dListIo.ReadGroups | io_scene_ms3d/ms3d_spec.py:1673-1679 | likewise for groups |
| Ms3dListIo.ReadMaterials | io_scene_ms3d/ms3d_spec.py:1681-1687 | likewise for materials |
| Ms3dListIo.ReadJoints | io_scene_ms3d/ms3d_spec.py:1699-1708 | likewise for joints |
| Ms3dListIo.WriteVertices | io_scene_ms3d/ms3d_spec.py:1867-1869 | the vertex loop appends the bytes of the list encoder and stops at the first failure |
| Ms3dListIo.WriteTriangles | io_scene_ms3d/ms3d_spec.py:1871-1873 | likewise for triangles |
| Ms3dListIo.WriteGroups | io_scene_ms3d/ms3d_spec.py:1875-1877 | likewise for groups |
| Ms3dListIo.WriteMaterials | io_scene_ms3d/ms3d_spec.py:1879-1881 | likewise for materials |
| Ms3dListIo.WriteJoints | io_scene_ms3d/ms3d_spec.py:1890-1892 | likewise for joints |
| Ms3dListIo.WriteCommentExs | io_scene_ms3d/ms3d_spec.py:1894-1906 | corrected comment sections (see ## Findings): likewise for indexed comments |
| Ms3dListIo.WriteVertexExs | io_scene_ms3d/ms3d_spec.py:1912-1915 | likewise for extra vertex records |
| Ms3dListIo.WriteJointExs | io_scene_ms3d/ms3d_spec.py:1917-1919 | likewise for extra joint records |
| Ms3dModelFormat.NewModel | io_scene_ms3d/ms3d_spec.py:1375-1405 | a new model has empty lists, the default name, no model comment and the default extra model data |
| Ms3dModelFormat.Commented | io_scene_ms3d/ms3d_spec.py:1462-1522 | the commented entries are no more than the owners, and each has text |
| Ms3dModelFormat.HasModelComment | io_scene_ms3d/ms3d_spec.py:1525-1529 | 1 exactly when there is a model comment with text, otherwise 0 |
| Ms3dModelFormat.Attach | io_scene_ms3d/ms3d_spec.py:1710-1769 | a comment replaces the comment of the owner its index names; an index naming no owner changes nothing |
| Ms3dModelFormat.AttachCommentsFrom | io_scene_ms3d/ms3d_spec.py:1710-1769 | a completed comment loop keeps one comment per owner |
| Ms3dModelFormat.AttachVertexExFrom | io_scene_ms3d/ms3d_spec.py:1778-1796 | a completed extra vertex loop keeps the vertices, changing only their extra records; an unknown sub-version stops it |
| Ms3dModelFormat.AttachJointExFrom | io_scene_ms3d/ms3d_spec.py:1798-1804 | a completed extra joint loop keeps the joints, changing only their extra records |
| Ms3dModelFormat.Finish | io_scene_ms3d/ms3d_spec.py:1828-1854 | each value whose section was not reached returns to its default: joints, comment sub-version, model comment and the three extra sub-versions with the extra model data |
| Ms3dModelFormat.Recover | io_scene_ms3d/ms3d_spec.py:1887-1929 | a failure in the optional part still ends the write successfully, keeping the bytes written before it |
| Ms3dModelFormat.CommentedGroups | io_scene_ms3d/ms3d_spec.py:1472-1480 | as written, `group_comments` holds as many entries as there are commented groups, each a group with a comment |
| Ms3dModelFormat.CommentedMaterials | io_scene_ms3d/ms3d_spec.py:1493-1501 | as written, `material_comments` holds as many entries as there are commented materials, each a material with a comment |
| Ms3dModelFormat.CommentedJoints | io_scene_ms3d/ms3d_spec.py:1514-1522 | as written, `joint_comments` holds as many entries as there are commented joints, each a joint with a comment |
| Ms3dModelIo.GroupCommentStored | io_scene_ms3d/ms3d_spec.py:1710-1730 | storing a comment in the group it names attaches it to the group's comment list |
| Ms3dModelIo.MaterialCommentStored | io_scene_ms3d/ms3d_spec.py:1732-1750 | likewise for materials |
| Ms3dModelIo.JointCommentStored | io_scene_ms3d/ms3d_spec.py:1752-1769 | likewise for joints |
| Ms3dModelIo.AttachGroupComments | io_scene_ms3d/ms3d_spec.py:1715-1730 | the group comment loop ends with the groups the comment loop function gives, dropping comments for unknown groups |
| Ms3dModelIo.AttachMaterialComments | io_scene_ms3d/ms3d_spec.py:1737-1750 | likewise for materials |
| Ms3dModelIo.AttachJointComments | io_scene_ms3d/ms3d_spec.py:1757-1769 | likewise for joints |
| Ms3dModelIo.Ms3dModel.constructor | io_scene_ms3d/ms3d_spec.py:1375-1405 | the new object holds `NewModel` |
| Ms3dModelIo.Ms3dModel.ReadHeaderPart | io_scene_ms3d/ms3d_spec.py:1653-1655 | the object and bytes left are those of the header part |
| Ms3dModelIo.Ms3dModel.ReadVerticesPart | io_scene_ms3d/ms3d_spec.py:1657-1663 | likewise for the vertex count and vertices |
| Ms3dModelIo.Ms3dModel.ReadTrianglesPart | io_scene_ms3d/ms3d_spec.py:1665-1671 | likewise for the triangles |
| Ms3dModelIo.Ms3dModel.ReadGroupsPart | io_scene_ms3d/ms3d_spec.py:1673-1679 | likewise for the groups |
| Ms3dModelIo.Ms3dModel.ReadMaterialsPart | io_scene_ms3d/ms3d_spec.py:1681-1687 | likewise for the materials |
| Ms3dModelIo.Ms3dModel.ReadSettingsPart | io_scene_ms3d/ms3d_spec.py:1689-1691 | likewise for the animation fps, current time and frame count |
| Ms3dModelIo.Ms3dModel.ReadRequired | io_scene_ms3d/ms3d_spec.py:1653-1691 | fails exactly when the required part is cut short; otherwise the object is the required part read |
| Ms3dModelIo.Ms3dModel.AttachVertexExtras | io_scene_ms3d/ms3d_spec.py:1782-1796 | the extra vertex loop gives what `AttachVertexExFrom` gives |
| Ms3dModelIo.Ms3dModel.AttachJointExtras | io_scene_ms3d/ms3d_spec.py:1800-1804 | the extra joint loop gives what `AttachJointExFrom` gives |
| Ms3dModelIo.Ms3dModel.ReadJointsSection | io_scene_ms3d/ms3d_spec.py:1699-1708 | section 1 as the section function: the joints are kept only when the whole list is read |
| Ms3dModelIo.Ms3dModel.ReadGroupComments | io_scene_ms3d/ms3d_spec.py:1710-1730 | section 2 as the section function |
| Ms3dModelIo.Ms3dModel.ReadMaterialComments | io_scene_ms3d/ms3d_spec.py:1732-1750 | section 3 as the section function |
| Ms3dModelIo.Ms3dModel.ReadJointComments | io_scene_ms3d/ms3d_spec.py:1752-1769 | section 4 as the section function |
| Ms3dModelIo.Ms3dModel.ReadModelComment | io_scene_ms3d/ms3d_spec.py:1771-1776 | section 5 as the section function: a comment only when its flag is set |
| Ms3dModelIo.Ms3dModel.ReadVertexExtra | io_scene_ms3d/ms3d_spec.py:1778-1796 | section 6 as the section function |
| Ms3dModelIo.Ms3dModel.ReadJointExtra | io_scene_ms3d/ms3d_spec.py:1798-1804 | section 7 as the section function |
| Ms3dModelIo.Ms3dModel.ReadModelExtra | io_scene_ms3d/ms3d_spec.py:1806-1811 | section 8 as the section function |
| Ms3dModelIo.Ms3dModel.ReadOptional | io_scene_ms3d/ms3d_spec.py:1693-1825 | the sections run in order until one is cut short; the count of sections completed and the object are those of the optional part |
| Ms3dModelIo.Ms3dModel.Reset | io_scene_ms3d/ms3d_spec.py:1828-1854 | the object becomes `Finish` of what was read |
| Ms3dModelIo.Ms3dModel.ResetComments | io_scene_ms3d/ms3d_spec.py:1828-1844 | clears the joints, the comment sub-version and the model comment when their sections were not read |
| Ms3dModelIo.Ms3dModel.ResetExtras | io_scene_ms3d/ms3d_spec.py:1846-1850 | clears the extra vertex and joint sub-versions when their sections were not read |
| Ms3dModelIo.Ms3dModel.ResetModelExtra | io_scene_ms3d/ms3d_spec.py:1852-1854 | clears the extra model sub-version and restores the default extra model data when its section was not read |
| Ms3dModelIo.Ms3dModel.Read | io_scene_ms3d/ms3d_spec.py:1647-1856 | succeeds exactly when `ReadModel` of the old object and the file is defined, and the object is then that model |
| Ms3dModelIo.Ms3dModel.IsValid | io_scene_ms3d/ms3d_spec.py:1937-1987 | valid exactly when every count is within its limit |
| Ms3dModelIo.Ms3dModel.Write | io_scene_ms3d/ms3d_spec.py:1859-1934 | corrected comment sections (see ## Findings): appends the bytes of the model encoder; fails exactly when the required part fails |
| Ms3dModelWrite.WriteRequired | io_scene_ms3d/ms3d_spec.py:1865-1885 | appends the required part's bytes, failing as the required encoder does |
| Ms3dModelWrite.WriteRequiredFromGroups | io_scene_ms3d/ms3d_spec.py:1875-1885 | the same from the groups to the frame count |
| Ms3dModelWrite.WriteComments | io_scene_ms3d/ms3d_spec.py:1894-1906 | corrected comment sections (see ## Findings): one comment section: the count of commented owners, then their comments |
| Ms3dModelWrite.WriteModelComment | io_scene_ms3d/ms3d_spec.py:1908-1910 | the flag, then the comment when the flag is set |
| Ms3dModelWrite.WriteVertexExtra | io_scene_ms3d/ms3d_spec.py:1912-1915 | the sub-version, then the records when it is 1, 2 or 3 |
| Ms3dModelWrite.WriteJointExtra | io_scene_ms3d/ms3d_spec.py:1917-1919 | the sub-version, then every joint's record; sub-version 0 with joints fails |
| Ms3dModelWrite.WriteModelExtra | io_scene_ms3d/ms3d_spec.py:1921-1922 | the sub-version, then the data, which sub-version 0 lacks |
| Ms3dModelWrite.WriteOptional | io_scene_ms3d/ms3d_spec.py:1887-1922 | corrected comment sections (see ## Findings): the optional part, ending at the first failure |
| Ms3dModelProofs.AttachCommentedPrefix | io_scene_ms3d/ms3d_spec.py:1710-1769 | attaching the first k commented entries to default comments restores those comments |
| Ms3dModelProofs.AttachCommentsRoundTrip | io_scene_ms3d/ms3d_spec.py:1710-1769 | a comment loop over written comments attaches exactly those comments |
| Ms3dModelProofs.CommentsRoundTrip | io_scene_ms3d/ms3d_spec.py:1894-1906 | corrected comment sections (see ## Findings): a comment section written from the comments reads back as those comments |
| Ms3dModelProofs.LimitsFitCounts | io_scene_ms3d/ms3d_spec.py:1937-1987 | a model within the limits has counts that each fit their 16-bit field |
| Ms3dModelProofs.VerticesRoundTrip | io_scene_ms3d/ms3d_spec.py:1657-1663 | valid vertices read back without their extra records |
| Ms3dModelProofs.TrianglesRoundTrip | io_scene_ms3d/ms3d_spec.py:1665-1671 | valid triangles read back unchanged |
| Ms3dModelProofs.GroupsRoundTrip | io_scene_ms3d/ms3d_spec.py:1673-1679 | valid groups read back with default comments |
| Ms3dModelProofs.MaterialsRoundTrip | io_scene_ms3d/ms3d_spec.py:1681-1687 | valid materials read back with default comments |
| Ms3dModelProofs.JointsRoundTrip | io_scene_ms3d/ms3d_spec.py:1699-1708 | valid joints read back without extra records or comments |
| Ms3dModelProofs.RequiredRoundTrip | io_scene_ms3d/ms3d_spec.py:1653-1691 | the required part of a writable model is written completely and reads back, leaving what follows |
| Ms3dModelProofs.JointsSectionReads | io_scene_ms3d/ms3d_spec.py:1699-1708 | section 1 reads back the joint records |
| Ms3dModelProofs.GroupCommentsSectionReads | io_scene_ms3d/ms3d_spec.py:1710-1730 | section 2 reads back the comment sub-version and the group comments |
| Ms3dModelProofs.MaterialCommentsSectionReads | io_scene_ms3d/ms3d_spec.py:1732-1750 | section 3 reads back the material comments |
| Ms3dModelProofs.JointCommentsSectionReads | io_scene_ms3d/ms3d_spec.py:1752-1769 | section 4 reads back the joint comments |
| Ms3dModelProofs.ModelCommentSectionReads | io_scene_ms3d/ms3d_spec.py:1771-1776 | section 5 reads back no comment, or one with text |
| Ms3dModelProofs.AttachVertexExRoundTrip | io_scene_ms3d/ms3d_spec.py:1782-1796 | the extra vertex loop reads back each vertex's own record |
| Ms3dModelProofs.AttachJointExRoundTrip | io_scene_ms3d/ms3d_spec.py:1800-1804 | the extra joint loop reads back each joint's own record |
| Ms3dModelProofs.VertexExtraSectionReads | io_scene_ms3d/ms3d_spec.py:1778-1796 | section 6 reads back the sub-version and every vertex's extra record |
| Ms3dModelProofs.JointExtraSectionReads | io_scene_ms3d/ms3d_spec.py:1798-1804 | section 7 reads back the sub-version and every joint's extra record |
| Ms3dModelProofs.ModelExtraSectionReads | io_scene_ms3d/ms3d_spec.py:1806-1811 | section 8 reads back the sub-version and, above 0, the extra model data |
| Ms3dModelProofs.OptionalSectionsWritten | io_scene_ms3d/ms3d_spec.py:1887-1922 | every optional section of a writable model but the last is written completely |
| Ms3dModelProofs.OptionalLayout | io_scene_ms3d/ms3d_spec.py:1887-1922 | the optional part of a writable model is its sections one after another |
| Ms3dModelProofs.FirstSectionsRead | io_scene_ms3d/ms3d_spec.py:1699-1769 | sections 1 to 4 read back the joints and the three comment lists |
| Ms3dModelProofs.LastSectionsRead | io_scene_ms3d/ms3d_spec.py:1771-1811 | sections 5 to 8 read back the model comment and the extra data |
| Ms3dModelProofs.OptionalRoundTrip | io_scene_ms3d/ms3d_spec.py:1693-1854 | corrected comment sections (see ## Findings): the optional part of a writable model reads back completely onto its required part |
| Ms3dModelProofs.ModelRoundTrip | io_scene_ms3d/ms3d_spec.py:1647-1934 | corrected comment sections (see ## Findings): a writable model is written successfully and reads back as itself, whatever follows it and whatever the object held; only the name, and the extra model data under sub-version 0, stay the object's own |
| Ms3dModelProofs.OptionalInOrder | io_scene_ms3d/ms3d_spec.py:1693-1825 | the optional sections run in order and the first one cut short ends the part; input is left exactly when all eight complete; the required fields are untouched |
| Ms3dModelProofs.RequiredOnlyResets | io_scene_ms3d/ms3d_spec.py:1813-1854 | a file ending right after the required part leaves every optional value at its default, whatever the object held |
| Ms3dModelProofs.EmptyStringZeros | io_scene_ms3d/ms3d_spec.py:268-285 | writing the empty text gives `length` zero bytes |
| Ms3dModelProofs.ZerosReadAsEmptyComment | io_scene_ms3d/ms3d_spec.py:992-996 | eight zero bytes read as comment 0 without text |
| Ms3dModelProofs.UnnamedGroupStartsWithZeros | io_scene_ms3d/ms3d_spec.py:576-582 | a group without flags or name starts with eight zero bytes |
| Ms3dModelProofs.UnnamedGroupReadsAsEmptyComment | io_scene_ms3d/ms3d_spec.py:1715-1730 | the comment loop, given such a group record, attaches an empty comment |
| Ms3dModelProofs.OneCommentedGroupAsWritten | io_scene_ms3d/ms3d_spec.py:1896-1898 | as written, the group comment section for one commented group is the count 1 and then that group's own record |
| Ms3dModelProofs.GroupCommentsAsWrittenLoseComment | io_scene_ms3d/ms3d_spec.py:1894-1898 | as written, a commented group without flags or name reads back without its comment |
| Ms3dModelProofs.OneCommentedMaterialAsWritten | io_scene_ms3d/ms3d_spec.py:1900-1902 | as written, the material comment section for one commented material is the count 1 and then that material's own record |
| Ms3dModelProofs.OneCommentedJointAsWritten | io_scene_ms3d/ms3d_spec.py:1904-1906 | as written, the joint comment section for one commented joint is the count 1 and then that joint's own record |
| Ms3dModelProofs.AsWrittenAgreesWithoutComments | io_scene_ms3d/ms3d_spec.py:1887-1922 | with no commented group, material or joint, the optional part as written and the corrected one are the same bytes |
| Ms3dUi.Ms3dFlagsToUi | io_scene_ms3d/ms3d_ui.py:189-205 | the result holds only the seven flag names, never the name for no flag |
| Ms3dUi.UiFlagsToMs3d | io_scene_ms3d/ms3d_ui.py:207-223 | the result sets no bit outside the seven flag bits |
| Ms3dUi.FlagsRoundTrip | io_scene_ms3d/ms3d_ui.py:189-223 | bits to names and back keeps exactly `b & 0x7F` |
| Ms3dUi.UiFlagsRoundTrip | io_scene_ms3d/ms3d_ui.py:189-223 | names to bits and back gives any set of the seven names again |
| Ms3dUi.Ms3dTextureModeToUi | io_scene_ms3d/ms3d_ui.py:135-143 | the result holds only the three texture flag names |
| Ms3dUi.UiTextureModeToMs3d | io_scene_ms3d/ms3d_ui.py:145-154 | corrected to start from `FLAG_TEXTURE_NONE` (0): the result sets no bit outside the three texture bits |
| Ms3dUi.TextureModeAsWrittenFails | io_scene_ms3d/ms3d_ui.py:145-154 | as written the conversion fails for every set of names, while the corrected one gives, for example, 0x40 for `HAS_ALPHA` |
| Ms3dUi.TextureModeRoundTrip | io_scene_ms3d/ms3d_ui.py:135-154 | texture bits to names and back keeps exactly `b & 0xE0` |
| Ms3dUi.UiTextureModeRoundTrip | io_scene_ms3d/ms3d_ui.py:135-154 | names to bits and back gives any set of the three texture names again |
| Ms3dUi.Ms3dTransparencyModeToUi | io_scene_ms3d/ms3d_ui.py:161-168 | defined exactly for the modes 0, 1 and 2; `None` otherwise |
| Ms3dUi.UiTransparencyModeToMs3d | io_scene_ms3d/ms3d_ui.py:170-177 | defined exactly for the three mode names; `None` otherwise |
| Ms3dUi.TransparencyModesInverse | io_scene_ms3d/ms3d_ui.py:161-177 | the two transparency maps undo each other wherever either is defined |
| Ms3dUi.Ms3dModelPropertyGroup.constructor | io_scene_ms3d/ms3d_ui.py:863-878 | no groups and no selection |
| Ms3dUi.Ms3dModelPropertyGroup.CreateGroup | io_scene_ms3d/ms3d_ui.py:860-870 | appends one group with the given id and the name numbered by the new length, and selects it; the selection invariant is kept |
| Ms3dUi.Ms3dModelPropertyGroup.RemoveGroup | io_scene_ms3d/ms3d_ui.py:872-878 | with a selection inside the list, removes the selected group and moves the selection back one (to -1 once the list is empty, staying at 0 otherwise); any other selection changes nothing |
| MarmaladeGeo.GeoPoly.constructor | io_export_marmalade.py:478-479 | a polygon without corners |
| MarmaladeGeo.GeoPoly.AddPoint | io_export_marmalade.py:481-482 | appends one corner and keeps the others |
| MarmaladeGeo.GeoMaterialPolys.constructor | io_export_marmalade.py:502-507 | the named material, with no triangles, no quads and no current polygon |
| MarmaladeGeo.GeoMaterialPolys.BeginPoly | io_export_marmalade.py:509-510 | a new, empty current polygon; the lists are unchanged |
| MarmaladeGeo.GeoMaterialPolys.AddPoint | io_export_marmalade.py:512-513 | appends one corner to the current polygon |
| MarmaladeGeo.GeoMaterialPolys.EndPoly | io_export_marmalade.py:515-520 | a 3-corner polygon joins the triangles and a 4-corner one the quads; any other is dropped; afterwards there is no current polygon |
| MarmaladeGeo.GeoMaterialPolys.ClearPolys | io_export_marmalade.py:522-525 | no triangles, no quads, no current polygon; name kept |
| MarmaladeGeo.GeoModel.constructor | io_export_marmalade.py:553-575 | the named model with empty streams, materials, skin tables and zero bases |
| MarmaladeGeo.GeoModel.AddVertex | io_export_marmalade.py:579-580 | appends the vertex to its stream |
| MarmaladeGeo.GeoModel.AddVertexNormal | io_export_marmalade.py:582-583 | appends the normal to its stream |
| MarmaladeGeo.GeoModel.AddVertexUV0 | io_export_marmalade.py:586-588 | appends the pair and returns its index within the current object: the base plus the index is its position |
| MarmaladeGeo.GeoModel.AddVertexUV1 | io_export_marmalade.py:590-592 | likewise for the second UV stream |
| MarmaladeGeo.GeoModel.AddVertexColor | io_export_marmalade.py:595-602 | returns the first position of the colour, appending it only when it is missing |
| MarmaladeGeo.GeoModel.BeginPoly | io_export_marmalade.py:604-609 | the filed material of that name, or a new one, becomes current and starts an empty polygon |
| MarmaladeGeo.GeoModel.AddPoint | io_export_marmalade.py:611-621 | appends a corner whose stream indices are shifted by their bases, except -1; the colour index is kept |
| MarmaladeGeo.GeoModel.EndPoly | io_export_marmalade.py:623-626 | the current material ends its polygon and is filed under its name; no current material afterwards |
| MarmaladeGeo.GeoModel.NewObject | io_export_marmalade.py:628-633 | each base becomes the current length of its stream |
| MarmaladeGeo.GeoModel.ClearAllExceptMaterials | io_export_marmalade.py:635-651 | empty streams, zero bases and empty skin tables; the materials stay filed under their names with no polygons |
| MarmaladeGeo.GeoModel.ClearStreams | io_export_marmalade.py:637-641 | the five streams are empty |
| MarmaladeGeo.GeoModel.ResetStreams | io_export_marmalade.py:637-651 | the model's own fields as `ClearAllExceptMaterials` leaves them |
| MarmaladeGeo.ClearPolysOf | io_export_marmalade.py:647-648 | every filed material loses its polygons, keeping its name |
| MarmaladeSkin.StripName | io_export_marmalade.py:1536-1546 | replacing each punctuation character and the space in turn gives `Stripped` |
| MarmaladeSkin.StrippedClean | io_export_marmalade.py:1536-1546 | the stripped name has the same length, keeps every other character in place, and holds no space and no punctuation but `_` |
| MarmaladeSkin.StrippedIdempotent | io_export_marmalade.py:1536-1546 | stripping twice is stripping once |
| MarmaladeSkin.StripBoneName | io_export_marmalade.py:1532-1533 | the name without its spaces: every other character keeps its count |
| MarmaladeSkin.StripBoneNameKeeps | io_export_marmalade.py:1532-1533 | a name without spaces is unchanged, so stripping is idempotent |
| MarmaladeSkin.InsertSorted | io_export_marmalade.py:1240-1241 | inserting into an ascending list keeps it ascending and adds the value once |
| MarmaladeSkin.SortAscending | io_export_marmalade.py:1240-1241 | `list.sort()` gives an ascending permutation |
| MarmaladeSkin.AddVertexSkin | io_export_marmalade.py:1220-1273 | the key is the sum of powers of two of the first four groups; the bone list is their ascending permutation; every group's stripped name is recorded; the vertex's weights join the set under its key, or start a new one; a vertex in no group changes no set |
| MarmaladeSkin.UseBones | io_export_marmalade.py:1226-1232 | the group loop keeps the first four groups, their key, and records each group's name |
| MarmaladeSkin.NamedGroups | io_export_marmalade.py:1226-1232 | after the loop every group's name is its stripped name, the names are those known before plus the groups, and the others are kept |
| MarmaladeSkin.KeyAppend | io_export_marmalade.py:1226-1232 | the key of a list is the key of its first part plus that of the rest |
| MarmaladeSkin.KeyPermutation | io_export_marmalade.py:1226-1241 | the key does not depend on the order of the groups |
| MarmaladeSkin.KeyBounds | io_export_marmalade.py:1226-1232 | for strictly ascending groups the highest one fixes the key's highest bit |
| MarmaladeSkin.KeyInjective | io_export_marmalade.py:1226-1232 | strictly ascending group lists with the same key are the same list |
| MarmaladeSkin.NoRepeatsOnce | io_export_marmalade.py:1226-1241 | a list without repeats holds each value at most once |
| MarmaladeSkin.SortedWithoutRepeats | io_export_marmalade.py:1240-1241 | sorting a list without repeats gives a strictly ascending list |
| MarmaladeSkin.KeyIdentifiesBones | io_export_marmalade.py:1226-1271 | for groups without repeats, two keys are equal exactly when the bone sets are equal, whatever the order |
| MarmaladeSkin.AddVertexSkinKeyed | io_export_marmalade.py:1262-1273 | filing a vertex keeps every skin set under the key of its own bones |
| PdbImport.Slice | io_import_pdb_atomic_blender.py:1079-1087 | a clamped Python slice: at most `j - i` characters taken from position `i`, all of them when `j` is within the string, none when `i` is past its end |
| PdbImport.Upper | io_import_pdb_atomic_blender.py:1093 | upper-casing keeps the length and maps each character |
| PdbImport.HeadWord | io_import_pdb_atomic_blender.py:1049 | a prefix without spaces that ends at the first space or at the end of the line |
| PdbImport.RStrip | io_import_pdb_atomic_blender.py:1245 | a prefix that does not end in white space; everything dropped is white space |
| PdbImport.FirstWord | io_import_pdb_atomic_blender.py:1253-1254 | the first word holds no white space |
| PdbImport.FirstWordAfterSpaces | io_import_pdb_atomic_blender.py:1253-1254 | the first word is the run of non-white-space characters that follows the line's leading white space, so it is empty only when the line is blank |
| PdbImport.ShortName | io_import_pdb_atomic_blender.py:1079-1087 | at most two characters, cut from column 13 or column 12; two only as an upper-case letter followed by a lower-case one; taken from column 13 whenever that column holds an upper-case letter |
| PdbImport.FindElement | io_import_pdb_atomic_blender.py:1091-1102 | the first table entry whose symbol equals the short name ignoring case, or none |
| PdbImport.AtomOf | io_import_pdb_atomic_blender.py:1091-1120 | every atom takes its radius and colour from an entry of the element table |
| PdbImport.AtomOfCases | io_import_pdb_atomic_blender.py:1091-1120 | a found element gives the upper-cased table symbol and the table name; with none, a symbol holding `X` gives the vacancy (third-last entry), and any other gives an unknown atom named by the upper-cased symbol (second-last entry) |
| PdbImport.UpperIdempotent | io_import_pdb_atomic_blender.py:1117-1118 | upper-casing twice is upper-casing once |
| PdbImport.AtomStart | io_import_pdb_atomic_blender.py:1047-1053 | the first ATOM/HETATM line, or the last line when there is none |
| PdbImport.FindAtomStart | io_import_pdb_atomic_blender.py:1047-1053 | the start loop stops at `AtomStart` |
| PdbImport.LookUpElement | io_import_pdb_atomic_blender.py:1091-1120 | the lookup loop gives `AtomOf` |
| PdbImport.HandleAtomLine | io_import_pdb_atomic_blender.py:1067-1136 | a TER line adds one to the count; an ATOM/HETATM line adds one and appends its atom; any other line changes nothing |
| PdbImport.AtomLoop | io_import_pdb_atomic_blender.py:1055-1139 | the loop's atoms and count are those of the lines from the start up to the first empty line |
| PdbImport.ReadAtoms | io_import_pdb_atomic_blender.py:1047-1143 | fails exactly for an empty file; otherwise the atoms and the total are those of the atom lines |
| PdbImport.CountIsAtomsPlusTer | io_import_pdb_atomic_blender.py:1143 | the total is the number of atoms plus the number of TER lines |
| PdbImport.ChoppedFromAt | io_import_pdb_atomic_blender.py:1138-1139 | every line after the start line is handled without its last character |
| PdbImport.StopsAtBlankLine | io_import_pdb_atomic_blender.py:1060-1061 | the loop stops at the first line holding only its line break; no later line is read |
| PdbImport.AtomTypes | io_import_pdb_atomic_blender.py:1153-1166 | the nested loop builds `Dedup` of the atoms, whose properties the lemmas below give |
| PdbImport.NameSeen | io_import_pdb_atomic_blender.py:1157-1161 | the inner loop finds the name exactly when a type already carries it |
| PdbImport.DedupDistinct | io_import_pdb_atomic_blender.py:1153-1166 | no name appears twice among the types |
| PdbImport.DedupCovers | io_import_pdb_atomic_blender.py:1153-1166 | every atom's name appears among the types |
| PdbImport.DedupFromFirst | io_import_pdb_atomic_blender.py:1153-1166 | every type is that of the first atom with its name |
| PdbImport.DedupOrdered | io_import_pdb_atomic_blender.py:1153-1166 | the types come in the order of the first atoms of their names |
| PdbImport.ConectStart | io_import_pdb_atomic_blender.py:1211-1218 | the first CONECT line, or the last line when there is none |
| PdbImport.FindConectStart | io_import_pdb_atomic_blender.py:1211-1218 | the start loop stops at `ConectStart` |
| PdbImport.ParseConect | io_import_pdb_atomic_blender.py:1245-1258 | the field loop gives the numbers of the whole five-column fields after `CONECT`, skipping a field whose first word is not all digits |
| PdbImport.ConnectLine | io_import_pdb_atomic_blender.py:1260-1286 | the pair loop with its search over the stored sticks pairs the first atom with each later one, as `AddPairs` does |
| PdbImport.ConectLoop | io_import_pdb_atomic_blender.py:1220-1289 | the loop's sticks are those of the CONECT lines still to be handled |
| PdbImport.ReadSticks | io_import_pdb_atomic_blender.py:1211-1289 | fails exactly where a handled line yields no atom number (`atom_list[0]` raises); otherwise gives the sticks of the CONECT lines, their number and the number of doubles |
| PdbImport.AddPairKeepsDistinct | io_import_pdb_atomic_blender.py:1270-1286 | registering one pair never stores the same oriented pair twice |
| PdbImport.AddPairsKeepsDistinct | io_import_pdb_atomic_blender.py:1260-1286 | likewise for all the pairs of a line |
| PdbImport.BondsFromDistinct | io_import_pdb_atomic_blender.py:1220-1289 | the sticks of any run of CONECT lines are pairwise different |
| PdbImport.AddPairsCounts | io_import_pdb_atomic_blender.py:1260-1286 | every pair offered is stored or counted as a double |
| PdbImport.AddPairsContents | io_import_pdb_atomic_blender.py:1260-1286 | the earlier sticks stay in place; the sticks are the earlier ones and the offered pairs |
| PdbImport.ReversedPairIsNew | io_import_pdb_atomic_blender.py:1270-1286 | a pair in the reverse orientation of a stored stick is stored as new |
| PdbImport.FiveDigitFields | io_import_pdb_atomic_blender.py:1245-1258 | a field of five digits gives its number |
| PdbImport.SkipSpaces | io_import_pdb_atomic_blender.py:1245-1258 | leading white space does not change the first word |
| PdbImport.TakeDigits | io_import_pdb_atomic_blender.py:1245-1258 | a run of digits is its own first word |
| PdbImport.PaddedFields | io_import_pdb_atomic_blender.py:1245-1258 | leading spaces of a field are skipped |
| PdbImport.FixedColumns | io_import_pdb_atomic_blender.py:1245-1258 | `CONECT11111  22244444` pairs atom 11111 with atoms 222 and 44444 |
| PdbImport.ThreeFields | io_import_pdb_atomic_blender.py:1245-1258 | three whole fields give their three numbers in order |
| PdbImport.ShortTailIgnored | io_import_pdb_atomic_blender.py:1245-1258 | a tail shorter than a field is ignored |
| CurveSimplify.ChooseEdges | curve_simplify.py:86-95 | both ends of every row of Pascal's triangle are 1 |
| CurveSimplify.ChooseSymmetric | curve_simplify.py:86-95 | every row reads the same both ways |
| CurveSimplify.ChooseAbove | curve_simplify.py:86-95 | entries beyond the row are 0 |
| CurveSimplify.Binom | curve_simplify.py:86-95 | the in-place row loop returns the binomial coefficient |
| CurveSimplify.ArgMax | curve_simplify.py:139-145 | the first vertex of greatest altitude strictly inside the gap |
| CurveSimplify.GapPickCharacterized | curve_simplify.py:134-149 | a gap picks a vertex exactly when one lies above both 0 and `error`, and then the first highest one |
| CurveSimplify.IterateGap | curve_simplify.py:139-148 | the inner loop gives the gap's pick |
| CurveSimplify.Iterate | curve_simplify.py:134-149 | the picks of every gap, or nothing when no gap picks a vertex |
| CurveSimplify.AppendIncreasing | curve_simplify.py:152-166 | two increasing lists, the first ending below the second, make one increasing list |
| CurveSimplify.RefineEnds | curve_simplify.py:152-166 | refining keeps the ends and adds one entry per pick |
| CurveSimplify.RefineIncreasing | curve_simplify.py:152-166 | refining keeps an increasing list increasing |
| CurveSimplify.RefineEntries | curve_simplify.py:152-166 | the refined list holds exactly the old entries and the picks |
| CurveSimplify.SortedUnique | curve_simplify.py:164-165 | an increasing list is what `sort` makes of any list with its entries |
| CurveSimplify.RefineIsSorted | curve_simplify.py:164-165 | any strictly increasing list holding exactly the kept indices and the new picks equals `Refine` of the kept indices, so `Refine` is what `newVerts += new; newVerts.sort()` yields |
| CurveSimplify.RefineStationary | curve_simplify.py:161-163 | a pass that picks nothing leaves the kept indices unchanged, so stopping there is a fixpoint of refinement |
| CurveSimplify.IncreasingBounded | curve_simplify.py:152-166 | an increasing list of indices below n has at most n entries, so the loop ends |
| CurveSimplify.ShortCurveNoPicks | curve_simplify.py:152-166 | for fewer than two vertices there is nothing to pick |
| CurveSimplify.SimplifyRdp | curve_simplify.py:152-166 | the result is `Refine` applied some number of times to `[0, n-1]` (the passes the loop makes); it starts at 0, ends at n-1, increases strictly, and no gap has a vertex left to pick |
| CurveSimplify.NoPicksWithinError | curve_simplify.py:152-166 | at the end every vertex lies within `error` of its gap's chord, or at no positive altitude |
| CurveSimplify.Distances | curve_simplify.py:66-71 | one distance per vertex, two for fewer than two vertices |
| CurveSimplify.SimplyPoly | curve_simplify.py:39-83 | the first index, then the inner indices, each a vertex index below the curve's length, strictly increasing, and holding a vertex exactly when its curvature or distance is above its threshold, then the last |
| CurveSimplify.PointOf | curve_simplify.py:180-197 | a vertex contributes `Stride` numbers: its 3 coordinates for BEZIER, followed by a weight otherwise |
| CurveSimplify.VertsToPoints | curve_simplify.py:180-197 | the loop packs each kept vertex's numbers in order |
| CurveSimplify.PackLayout | curve_simplify.py:180-197 | vertex j fills the entries from `Stride * j` on, and nothing else is packed |
| CurveSimplify.PackLength | curve_simplify.py:180-197 | the packed list has `Stride` entries per kept vertex |
| NodeBatchChange.IndexOf | node_efficiency_tools.py:278 | the first position holding the value, or nothing exactly when the value is absent (where `tuple.index` raises) |
| NodeBatchChange.Next | node_efficiency_tools.py:277-282 | defined exactly when the value is in the cycle, where `tuple.index` does not raise |
| NodeBatchChange.Prev | node_efficiency_tools.py:284-289 | defined exactly when the value is in the cycle |
| NodeBatchChange.Execute | node_efficiency_tools.py:266-309 | every selected node changes as `ChangeNode`; where a value is missing from its cycle, the nodes before it are changed and the rest are unchanged |
| NodeBatchChange.BlendTypesDistinct | node_efficiency_tools.py:73-78 | the 18 blend types are distinct |
| NodeBatchChange.OperationsDistinct | node_efficiency_tools.py:80-85 | the 17 operations are distinct |
| NodeBatchChange.NextPrevInverse | node_efficiency_tools.py:277-307 | in a cycle without repeats, NEXT and PREV stay in the cycle, PREV undoes NEXT and NEXT undoes PREV |
| NodeBatchChange.CycleWraps | node_efficiency_tools.py:277-307 | NEXT wraps the last entry to the first and PREV the first to the last |
| NodeBatchChange.ChangeNodeCases | node_efficiency_tools.py:272-307 | a token outside the navigation tokens is set on every Mix (or Math) node, CURRENT changes nothing, and other nodes are never changed |
| NodeBatchChange.NextThenPrevToken | node_efficiency_tools.py:272-307 | on a cycle without repeats that holds the value, the NEXT token succeeds and the PREV token then gives the value back |
| NodeBatchChange.NextThenPrevRestores | node_efficiency_tools.py:272-307 | for a node whose value is in its cycle, a NEXT change succeeds and a PREV change after it gives the node back |
| Print3dCleanFloat.RFind | object_print3d_utils/operators.py:41 | the position of the last occurrence, or -1 |
| Print3dCleanFloat.RStrip | object_print3d_utils/operators.py:45 | a prefix that does not end in `c`, and what it drops is all `c` |
| Print3dCleanFloat.NoPointUnchanged | object_print3d_utils/operators.py:39-47 | text without a point is unchanged |
| Print3dCleanFloat.RFindLast | object_print3d_utils/operators.py:41 | the last occurrence is the one found |
| Print3dCleanFloat.CleanFloatTrims | object_print3d_utils/operators.py:39-47 | with a last point, the result is a prefix that keeps the text up to the character after that point; everything dropped is `0`; and a result longer than that does not end in `0` |
| Print3dCleanFloat.KeepPrefix | object_print3d_utils/operators.py:44-46 | the kept head followed by the zero-stripped rest is a prefix of the text that drops only zeros and, when longer than the head, does not end in `0` |
| Print3dCleanFloat.CleanFloatIdempotent | object_print3d_utils/operators.py:39-47 | cleaning twice is cleaning once |
| Print3dCleanFloat.CleanFloatExamples | object_print3d_utils/operators.py:39-47 | `0.000` becomes `0.0`, `1.2500` becomes `1.25`, and `12` and `3.` are unchanged |
| StlFaces.QuadSplit | game_engine_ragdolls_kit/io_mesh_stl/blender_utils.py:41-50 | when triangulating, a quad yields `[a, b, c]` and `[c, d, a]` |
| StlFaces.QuadTrianglesCover | game_engine_ragdolls_kit/io_mesh_stl/blender_utils.py:46-48 | the two triangles share the diagonal and together hold the quad's four vertices |
| StlFaces.OtherFacesWhole | game_engine_ragdolls_kit/io_mesh_stl/blender_utils.py:49-50 | any other face, or any face without triangulation, is yielded once as it is |
| StlFaces.InMeshOrder | game_engine_ragdolls_kit/io_mesh_stl/blender_utils.py:41-50 | each face's lists follow those of the faces before it |
| StlFaces.TriangulatedCount | game_engine_ragdolls_kit/io_mesh_stl/blender_utils.py:41-50 | with triangulation, one list per face plus one per quad |
| StlFaces.UntriangulatedIsIdentity | game_engine_ragdolls_kit/io_mesh_stl/blender_utils.py:41-50 | without triangulation the faces come out unchanged |
| StlFaces.IndicesFromFaces | game_engine_ragdolls_kit/io_mesh_stl/blender_utils.py:41-50 | every index yielded belongs to some face |

## Left out

- Floating point: every `float` field is a 32-bit pattern (a `uint32`) read and written as four bytes; no arithmetic is done on it.
- Printing, logging and warnings (`print_internal`, the `debug` output, the warnings of the read loops) have no effect on the model.
- `Ms3dModel.is_valid` also builds a text report; only the verdict is modelled.
- The unknown extra vertex sub-version message in `Ms3dModel.read` is left out; the model keeps only the stop it causes.
- Files are byte sequences. The end-of-file probe by `os.fstat` is the count of bytes left, and opening and closing files are left out.
- Ms3dIo.DecodeString: in the code, bytes outside 32..127 become spaces. Some documentation says only that the text is cut at the zero byte; the model follows the code.
- Ms3dUi: the Blender property definitions and panels are left out, and so is the group name format string. `ms3d_strings.py` is not part of this model, so the name is a numbered placeholder.
- Ms3dUi.Ms3dModelPropertyGroup.CreateGroup: the random id from `generate_unique_id` is a parameter. The only constraint kept on it is its range.
- MarmaladeGeo: vertices, normals, UVs and colours are opaque values, and the material object of `CGeoMaterialPolys` is not modelled. `PrintPoly`, `PrintMaterialPolys` and `PrintGeoMesh` write text and are left out.
- MarmaladeSkin.AddVertexSkin: the weight text written for a vertex is an opaque `weightLine` parameter, not the formatted floats.
- MarmaladeSkin.AddVertexSkin: the two dictionaries are passed in and returned rather than updated in place. The armature and vertex lookups of the Blender scene are inputs.
- MarmaladeSkin.StripName: punctuation is Python's ASCII `string.punctuation`. Other Unicode characters are kept as they are.
- PdbImport: coordinates, radii and colours are not modelled, and neither are the float conversions that could raise on them. An atom is its short name and name.
- PdbImport: the character classes of `isupper`, `islower`, `upper` and `split` are ASCII only.
- PdbImport: the CONECT part runs after the atom part and assumes the same non-empty file.
- PdbImport.ParseConect: `isdigit` is taken as ASCII digits only. Python also accepts other Unicode digits, on which `int` may then raise.
- CurveSimplify: altitudes, curvatures and derivatives come from Blender's spline evaluation (`getDerivative`, `getCurvature`, `altitude`). They are given as an input function or list of reals.
- CurveSimplify.Distances: the distance is given per vertex. The vector arithmetic behind it is not modelled.
- CurveSimplify: the operator classes and the creation of the new curve objects are left out.
- NodeBatchChange.Execute: the `combo` string is taken as already split into its two tokens. `set_convenience_variables` and the Blender node tree are left out.
- StlFaces: faces are lists of vertex indices. The mesh wrapper and the Blender data access are left out.
- Print3dCleanFloat: the formatting of the number into text happens before `clean_float` and is left out.
- Ms3dModelIo.Ms3dModel.Write: the model writes the corrected comment sections, a comment record per commented owner, where the source writes the owner records themselves (see ## Findings). The as-written sections are `EmitGroupCommentsAsWritten`, `EmitMaterialCommentsAsWritten` and `EmitJointCommentsAsWritten` in `EmitOptionalAsWritten`; a read-back counterexample is proved for the group section only.
- CurveSimplify.Binom: requires `m <= n` and takes naturals. The source raises `IndexError` for `m > n` and indexes from the end for a negative `m`; neither is modelled, since its only caller passes `0 <= m <= n`.
- Ms3dModelFormat.Commented: as the format writes it, the comment count counts the same owners that `Commented` keeps. The count itself is not a separate function.

## Findings

| source | as written | input that shows it | evidently intended | confidence | as-written member | corrected member |
|---|---|---|---|---|---|---|
| io_scene_ms3d/ms3d_spec.py:1894-1906 | the group, material and joint comment sections write the commented owner records (`group_comments` holds groups) where a comment record belongs | the group `Group(0, "", [], -1, CommentEx(0, "x"))`: its record starts with eight zero bytes, which read back as comment 0 with no text, so the comment "x" is lost | each section writes the commented owners' `comment_object` records, which read back as the same comments | high (proved; not executed) | Ms3dModelProofs.GroupCommentsAsWrittenLoseComment | Ms3dModelProofs.CommentsRoundTrip |
| io_scene_ms3d/ms3d_ui.py:146 | `ui_texture_mode_to_ms3d` starts from `MS3D_FLAG_TEXTURE_NONE`, a name the module never imports (lines 56-82 import the other three texture flags), so every call raises `NameError` | any set of names, for example the empty set | start from the format's `FLAG_TEXTURE_NONE` (0) and OR in the named texture flags | high (proved; not executed) | Ms3dUi.TextureModeAsWrittenFails | Ms3dUi.UiTextureModeRoundTrip |
