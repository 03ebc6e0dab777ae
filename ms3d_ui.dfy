/**
 * The conversions of the MilkShape 3D add-on's user interface between the
 * file's bit sets and mode numbers and the names the interface shows, and
 * the bookkeeping of the model's group list.
 */
module Ms3dUi {
  import opened Wrappers

  // Values of `Ms3dSpec`.
  const FLAG_NONE: bv8 := 0
  const FLAG_SELECTED: bv8 := 1
  const FLAG_HIDDEN: bv8 := 2
  const FLAG_SELECTED2: bv8 := 4
  const FLAG_DIRTY: bv8 := 8
  const FLAG_ISKEY: bv8 := 16
  const FLAG_NEWLYCREATED: bv8 := 32
  const FLAG_MARKED: bv8 := 64

  const FLAG_TEXTURE_NONE: bv8 := 0x00
  const FLAG_TEXTURE_COMBINE_ALPHA: bv8 := 0x20
  const FLAG_TEXTURE_HAS_ALPHA: bv8 := 0x40
  const FLAG_TEXTURE_SPHERE_MAP: bv8 := 0x80

  const MODE_TRANSPARENCY_SIMPLE := 0
  const MODE_TRANSPARENCY_DEPTH_BUFFERED_WITH_ALPHA_REF := 1
  const MODE_TRANSPARENCY_DEPTH_SORTED_TRIANGLES := 2

  // The names the interface shows.
  const UI_FLAG_NONE := "NONE"
  const UI_FLAG_SELECTED := "SELECTED"
  const UI_FLAG_HIDDEN := "HIDDEN"
  const UI_FLAG_SELECTED2 := "SELECTED2"
  const UI_FLAG_DIRTY := "DIRTY"
  const UI_FLAG_ISKEY := "ISKEY"
  const UI_FLAG_NEWLYCREATED := "NEWLYCREATED"
  const UI_FLAG_MARKED := "MARKED"

  const UI_FLAG_TEXTURE_COMBINE_ALPHA := "COMBINE_ALPHA"
  const UI_FLAG_TEXTURE_HAS_ALPHA := "HAS_ALPHA"
  const UI_FLAG_TEXTURE_SPHERE_MAP := "SPHERE_MAP"

  const UI_MODE_TRANSPARENCY_SIMPLE := "SIMPLE"
  const UI_MODE_TRANSPARENCY_DEPTH_BUFFERED_WITH_ALPHA_REF := "DEPTH_BUFFERED_WITH_ALPHA_REF"
  const UI_MODE_TRANSPARENCY_DEPTH_SORTED_TRIANGLES := "DEPTH_SORTED_TRIANGLES"

  /** The names of the seven flags. */
  const UI_FLAGS: set<string> := {UI_FLAG_SELECTED, UI_FLAG_HIDDEN, UI_FLAG_SELECTED2, UI_FLAG_DIRTY,
                                  UI_FLAG_ISKEY, UI_FLAG_NEWLYCREATED, UI_FLAG_MARKED}

  /** The names of the three texture flags. */
  const UI_TEXTURE_FLAGS: set<string> := {UI_FLAG_TEXTURE_COMBINE_ALPHA, UI_FLAG_TEXTURE_HAS_ALPHA, UI_FLAG_TEXTURE_SPHERE_MAP}

  // ---------------------------------------------------------------- flags

  /** `ms3d_flags_to_ui`: the names of the flags set in the byte `b`. */
  function Ms3dFlagsToUi(b: bv8): (r: set<string>)
    ensures r <= UI_FLAGS && UI_FLAG_NONE !in r
  {
    (if b & FLAG_SELECTED == FLAG_SELECTED then {UI_FLAG_SELECTED} else {}) +
    (if b & FLAG_HIDDEN == FLAG_HIDDEN then {UI_FLAG_HIDDEN} else {}) +
    (if b & FLAG_SELECTED2 == FLAG_SELECTED2 then {UI_FLAG_SELECTED2} else {}) +
    (if b & FLAG_DIRTY == FLAG_DIRTY then {UI_FLAG_DIRTY} else {}) +
    (if b & FLAG_ISKEY == FLAG_ISKEY then {UI_FLAG_ISKEY} else {}) +
    (if b & FLAG_NEWLYCREATED == FLAG_NEWLYCREATED then {UI_FLAG_NEWLYCREATED} else {}) +
    (if b & FLAG_MARKED == FLAG_MARKED then {UI_FLAG_MARKED} else {})
  }

  /** `ui_flags_to_ms3d`: the flags named in `s` ORed together; other names are ignored. */
  function UiFlagsToMs3d(s: set<string>): (r: bv8)
    ensures r & 0x80 == 0
  {
    FLAG_NONE |
    (if UI_FLAG_SELECTED in s then FLAG_SELECTED else 0) |
    (if UI_FLAG_HIDDEN in s then FLAG_HIDDEN else 0) |
    (if UI_FLAG_SELECTED2 in s then FLAG_SELECTED2 else 0) |
    (if UI_FLAG_DIRTY in s then FLAG_DIRTY else 0) |
    (if UI_FLAG_ISKEY in s then FLAG_ISKEY else 0) |
    (if UI_FLAG_NEWLYCREATED in s then FLAG_NEWLYCREATED else 0) |
    (if UI_FLAG_MARKED in s then FLAG_MARKED else 0)
  }

  /** Bits to names and back keeps exactly the seven flag bits, `b & 0x7F`. */
  lemma FlagsRoundTrip(b: bv8)
    ensures UiFlagsToMs3d(Ms3dFlagsToUi(b)) == b & 0x7F
  {
  }

  /** Names to bits and back gives any set of the seven names again. */
  lemma UiFlagsRoundTrip(s: set<string>)
    requires s <= UI_FLAGS
    ensures Ms3dFlagsToUi(UiFlagsToMs3d(s)) == s
  {
  }

  // ------------------------------------------------------- texture flags

  /** `ms3d_texture_mode_to_ui`: the names of the texture flags set in the byte `b`. */
  function Ms3dTextureModeToUi(b: bv8): (r: set<string>)
    ensures r <= UI_TEXTURE_FLAGS
  {
    (if b & FLAG_TEXTURE_COMBINE_ALPHA == FLAG_TEXTURE_COMBINE_ALPHA then {UI_FLAG_TEXTURE_COMBINE_ALPHA} else {}) +
    (if b & FLAG_TEXTURE_HAS_ALPHA == FLAG_TEXTURE_HAS_ALPHA then {UI_FLAG_TEXTURE_HAS_ALPHA} else {}) +
    (if b & FLAG_TEXTURE_SPHERE_MAP == FLAG_TEXTURE_SPHERE_MAP then {UI_FLAG_TEXTURE_SPHERE_MAP} else {})
  }

  /**
   * `ui_texture_mode_to_ms3d` as written: its first statement reads
   * `MS3D_FLAG_TEXTURE_NONE`, a name the module never imports, so every call
   * raises `NameError` (here: nothing) before any bit is set.
   */
  function UiTextureModeToMs3dAsWritten(s: set<string>): (r: Option<bv8>)
  {
    None
  }

  /**
   * `ui_texture_mode_to_ms3d` as evidently intended: the texture flags named
   * in `s` ORed onto `FLAG_TEXTURE_NONE`.
   */
  function UiTextureModeToMs3d(s: set<string>): (r: bv8)
    ensures r & 0x1F == 0
  {
    FLAG_TEXTURE_NONE |
    (if UI_FLAG_TEXTURE_COMBINE_ALPHA in s then FLAG_TEXTURE_COMBINE_ALPHA else 0) |
    (if UI_FLAG_TEXTURE_HAS_ALPHA in s then FLAG_TEXTURE_HAS_ALPHA else 0) |
    (if UI_FLAG_TEXTURE_SPHERE_MAP in s then FLAG_TEXTURE_SPHERE_MAP else 0)
  }

  /** As written the conversion fails for every set of names, even where the intended one gives a mode. */
  lemma TextureModeAsWrittenFails(s: set<string>)
    ensures UiTextureModeToMs3dAsWritten(s).None?
    ensures UiTextureModeToMs3d({UI_FLAG_TEXTURE_HAS_ALPHA}) == 0x40
  {
  }

  /** Texture bits to names and back keeps exactly the three texture bits, `b & 0xE0`. */
  lemma TextureModeRoundTrip(b: bv8)
    ensures UiTextureModeToMs3d(Ms3dTextureModeToUi(b)) == b & 0xE0
  {
  }

  /** Texture names to bits and back gives any set of the three names again. */
  lemma UiTextureModeRoundTrip(s: set<string>)
    requires s <= UI_TEXTURE_FLAGS
    ensures Ms3dTextureModeToUi(UiTextureModeToMs3d(s)) == s
  {
  }

  // -------------------------------------------------- transparency modes

  /** `ms3d_transparency_mode_to_ui`: nothing (`None`) for an unknown mode. */
  function Ms3dTransparencyModeToUi(v: int): (r: Option<string>)
    ensures r.Some? <==> v in {0, 1, 2}
  {
    if v == MODE_TRANSPARENCY_SIMPLE then Some(UI_MODE_TRANSPARENCY_SIMPLE)
    else if v == MODE_TRANSPARENCY_DEPTH_BUFFERED_WITH_ALPHA_REF then Some(UI_MODE_TRANSPARENCY_DEPTH_BUFFERED_WITH_ALPHA_REF)
    else if v == MODE_TRANSPARENCY_DEPTH_SORTED_TRIANGLES then Some(UI_MODE_TRANSPARENCY_DEPTH_SORTED_TRIANGLES)
    else None
  }

  /** `ui_transparency_mode_to_ms3d`: nothing (`None`) for an unknown name. */
  function UiTransparencyModeToMs3d(name: string): (r: Option<int>)
    ensures r.Some? <==> name in {UI_MODE_TRANSPARENCY_SIMPLE, UI_MODE_TRANSPARENCY_DEPTH_BUFFERED_WITH_ALPHA_REF,
                                 UI_MODE_TRANSPARENCY_DEPTH_SORTED_TRIANGLES}
  {
    if name == UI_MODE_TRANSPARENCY_SIMPLE then Some(MODE_TRANSPARENCY_SIMPLE)
    else if name == UI_MODE_TRANSPARENCY_DEPTH_BUFFERED_WITH_ALPHA_REF then Some(MODE_TRANSPARENCY_DEPTH_BUFFERED_WITH_ALPHA_REF)
    else if name == UI_MODE_TRANSPARENCY_DEPTH_SORTED_TRIANGLES then Some(MODE_TRANSPARENCY_DEPTH_SORTED_TRIANGLES)
    else None
  }

  /** The two transparency maps undo each other wherever either is defined. */
  lemma TransparencyModesInverse(v: int, name: string)
    ensures Ms3dTransparencyModeToUi(v).Some? ==> UiTransparencyModeToMs3d(Ms3dTransparencyModeToUi(v).value) == Some(v)
    ensures UiTransparencyModeToMs3d(name).Some? ==> Ms3dTransparencyModeToUi(UiTransparencyModeToMs3d(name).value) == Some(name)
  {
  }

  // ---------------------------------------------------------------- groups

  /** An item of the group list: its id and the count its name is formatted from. */
  datatype GroupItem = GroupItem(id: int, number: nat)

  /** The group list of `Ms3dModelPropertyGroup` and the index of the selected group. */
  class Ms3dModelPropertyGroup {
    var groups: seq<GroupItem>
    var selectedGroupIndex: int

    /** The selection is an item of the list, or -1 (nothing selected). */
    predicate Valid()
      reads this
    {
      -1 <= selectedGroupIndex < |groups|
    }

    /** A new property group: no groups and nothing selected. */
    constructor()
      ensures groups == [] && selectedGroupIndex == -1
      ensures Valid()
    {
      groups := [];
      selectedGroupIndex := -1;
    }

    /**
     * `create_group`, with the id `generate_unique_id` draws from
     * `[1, 0x7FFFFFFF)` given as a parameter: one item is appended, selected, and named after the new
     * length of the list.
     */
    method CreateGroup(id: int) returns (item: GroupItem)
      requires 1 <= id < 0x7FFF_FFFF
      modifies this
      ensures item == GroupItem(id, |old(groups)| + 1)
      ensures groups == old(groups) + [item]
      ensures selectedGroupIndex == |groups| - 1 && groups[selectedGroupIndex] == item
      ensures Valid()
    {
      item := GroupItem(id, |groups| + 1);
      groups := groups + [item];
      selectedGroupIndex := |groups| - 1;
    }

    /**
     * `remove_group`: with a selection inside the list, the selected item is
     * removed and the selection moves to the item before it (to -1 when the
     * list becomes empty, and staying on the first item otherwise); with any
     * other selection nothing changes.
     */
    method RemoveGroup()
      modifies this
      ensures var index := old(selectedGroupIndex);
        if 0 <= index < |old(groups)| then
          groups == old(groups)[..index] + old(groups)[index + 1..] &&
          selectedGroupIndex == (if index > 0 || |old(groups)| == 1 then index - 1 else index)
        else
          groups == old(groups) && selectedGroupIndex == index
      ensures old(Valid()) ==> Valid()
      ensures old(0 <= selectedGroupIndex < |groups|) ==> (selectedGroupIndex == -1 <==> groups == [])
    {
      var index := selectedGroupIndex;
      var length := |groups|;
      if index >= 0 && index < length {
        if index > 0 || length == 1 {
          selectedGroupIndex := index - 1;
        }
        groups := groups[..index] + groups[index + 1..];
      }
    }
  }
}
