/**
 * `BatchChangeNodes` of the node efficiency tools: every selected Mix node
 * gets a new blend type and every selected Math node a new operation, either
 * named outright or stepped to the next or previous one in a fixed cycle.
 */
module NodeBatchChange {
  import opened Wrappers

  /** `blend_types`: the blend types of "Mix" nodes, in cycling order. */
  const BLEND_TYPES: seq<string> := [
    "MIX", "ADD", "MULTIPLY", "SUBTRACT", "SCREEN",
    "DIVIDE", "DIFFERENCE", "DARKEN", "LIGHTEN", "OVERLAY",
    "DODGE", "BURN", "HUE", "SATURATION", "VALUE",
    "COLOR", "SOFT_LIGHT", "LINEAR_LIGHT"]

  /** `operations`: the operations of "Math" nodes, in cycling order. */
  const OPERATIONS: seq<string> := [
    "ADD", "MULTIPLY", "SUBTRACT", "DIVIDE", "SINE",
    "COSINE", "TANGENT", "ARCSINE", "ARCCOSINE", "ARCTANGENT",
    "POWER", "LOGARITHM", "MINIMUM", "MAXIMUM", "ROUND",
    "LESS_THAN", "GREATER_THAN"]

  /** `navs`: the tokens that move along a cycle instead of naming a value. */
  const NAVS: seq<string> := ["CURRENT", "NEXT", "PREV"]

  /** The part of a node the operator looks at and changes. */
  datatype Node = Node(kind: string, blendType: string, operation: string)

  predicate Distinct(t: seq<string>)
  {
    forall i, j :: 0 <= i < j < |t| ==> t[i] != t[j]
  }

  /** `tuple.index`: the first position of `v`, or nothing where Python raises `ValueError`. */
  function IndexOf(t: seq<string>, v: string): (r: Option<nat>)
    ensures r.None? <==> v !in t
    ensures r.Some? ==> r.value < |t| && t[r.value] == v && forall k :: 0 <= k < r.value ==> t[k] != v
  {
    if t == [] then None
    else if t[0] == v then Some(0)
    else match IndexOf(t[1..], v)
      case None => None
      case Some(k) => Some(k + 1)
  }

  /** NEXT: the entry after `v`, the last one wrapping to the first. */
  function Next(t: seq<string>, v: string): (r: Option<string>)
    ensures r.Some? <==> v in t
  {
    match IndexOf(t, v)
    case None => None
    case Some(index) => Some(if index == |t| - 1 then t[0] else t[index + 1])
  }

  /** PREV: the entry before `v`, the first one wrapping to the last. */
  function Prev(t: seq<string>, v: string): (r: Option<string>)
    ensures r.Some? <==> v in t
  {
    match IndexOf(t, v)
    case None => None
    case Some(index) => Some(if index == 0 then t[|t| - 1] else t[index - 1])
  }

  /** The new value of a field for a token: the token itself, or a step along the cycle `t`. */
  function Change(t: seq<string>, token: string, v: string): (r: Option<string>)
  {
    if token !in NAVS then Some(token)
    else if token == "NEXT" then Next(t, v)
    else if token == "PREV" then Prev(t, v)
    else Some(v)
  }

  /** One turn of the loop of `BatchChangeNodes.execute`; nothing where it raises. */
  function ChangeNode(n: Node, blendToken: string, opToken: string): (r: Option<Node>)
  {
    if n.kind == "MIX_RGB" then
      match Change(BLEND_TYPES, blendToken, n.blendType)
      case None => None
      case Some(b) => Some(n.(blendType := b))
    else if n.kind == "MATH" then
      match Change(OPERATIONS, opToken, n.operation)
      case None => None
      case Some(o) => Some(n.(operation := o))
    else Some(n)
  }

  /**
   * `BatchChangeNodes.execute` over the selected nodes, with the `combo`
   * string already split into its two tokens. Where a node's current value
   * is missing from its cycle the operator raises: the nodes before it are
   * changed and it and those after it are not.
   */
  method Execute(nodes: array<Node>, blendToken: string, opToken: string) returns (failed: Option<nat>)
    modifies nodes
    ensures failed.None? ==> forall i :: 0 <= i < nodes.Length ==>
      ChangeNode(old(nodes[i]), blendToken, opToken) == Some(nodes[i])
    ensures failed.Some? ==> (
      failed.value < nodes.Length &&
      ChangeNode(old(nodes[failed.value]), blendToken, opToken).None? &&
      (forall i :: 0 <= i < failed.value ==> ChangeNode(old(nodes[i]), blendToken, opToken) == Some(nodes[i])) &&
      (forall i :: failed.value <= i < nodes.Length ==> nodes[i] == old(nodes[i])))
  {
    for i := 0 to nodes.Length
      invariant forall k :: 0 <= k < i ==> ChangeNode(old(nodes[k]), blendToken, opToken) == Some(nodes[k])
      invariant forall k :: i <= k < nodes.Length ==> nodes[k] == old(nodes[k])
    {
      var n := nodes[i];
      var changed := ChangeNode(n, blendToken, opToken);
      if changed.None? {
        return Some(i);
      }
      nodes[i] := changed.value;
    }
    failed := None;
  }

  lemma BlendTypesDistinct()
    ensures |BLEND_TYPES| == 18 && Distinct(BLEND_TYPES)
  {
  }

  lemma OperationsDistinct()
    ensures |OPERATIONS| == 17 && Distinct(OPERATIONS)
  {
  }

  /** In a cycle without repeats, PREV undoes NEXT, NEXT undoes PREV, and both stay in the cycle. */
  lemma NextPrevInverse(t: seq<string>, v: string)
    requires Distinct(t) && v in t
    ensures Next(t, v).value in t && Prev(t, v).value in t
    ensures Prev(t, Next(t, v).value) == Some(v)
    ensures Next(t, Prev(t, v).value) == Some(v)
  {
    var index := IndexOf(t, v).value;
    var n := if index == |t| - 1 then 0 else index + 1;
    var p := if index == 0 then |t| - 1 else index - 1;
    assert IndexOf(t, t[n]) == Some(n);
    assert IndexOf(t, t[p]) == Some(p);
  }

  /** NEXT wraps the last entry to the first, and PREV the first to the last. */
  lemma CycleWraps(t: seq<string>)
    requires Distinct(t) && t != []
    ensures Next(t, t[|t| - 1]) == Some(t[0])
    ensures Prev(t, t[0]) == Some(t[|t| - 1])
  {
    assert IndexOf(t, t[|t| - 1]) == Some(|t| - 1);
  }

  /**
   * A token outside the navigation tokens is given to every Mix node (or
   * Math node), CURRENT leaves the value alone, and nodes of other kinds are
   * never changed.
   */
  lemma ChangeNodeCases(n: Node, blendToken: string, opToken: string)
    ensures n.kind == "MIX_RGB" && blendToken !in NAVS ==> ChangeNode(n, blendToken, opToken) == Some(n.(blendType := blendToken))
    ensures n.kind == "MATH" && opToken !in NAVS ==> ChangeNode(n, blendToken, opToken) == Some(n.(operation := opToken))
    ensures n.kind == "MIX_RGB" && blendToken == "CURRENT" ==> ChangeNode(n, blendToken, opToken) == Some(n)
    ensures n.kind == "MATH" && opToken == "CURRENT" ==> ChangeNode(n, blendToken, opToken) == Some(n)
    ensures n.kind != "MIX_RGB" && n.kind != "MATH" ==> ChangeNode(n, blendToken, opToken) == Some(n)
  {
  }

  /** On one field: the NEXT token followed by the PREV token gives the value back. */
  lemma NextThenPrevToken(t: seq<string>, v: string)
    requires Distinct(t) && v in t
    ensures Change(t, "NEXT", v).Some?
    ensures Change(t, "PREV", Change(t, "NEXT", v).value) == Some(v)
  {
    assert "NEXT" in NAVS && "PREV" in NAVS;
    NextPrevInverse(t, v);
  }

  /** A NEXT run followed by a PREV run gives every node its value back. */
  lemma NextThenPrevRestores(n: Node)
    requires n.kind == "MIX_RGB" ==> n.blendType in BLEND_TYPES
    requires n.kind == "MATH" ==> n.operation in OPERATIONS
    ensures ChangeNode(n, "NEXT", "NEXT").Some?
    ensures ChangeNode(ChangeNode(n, "NEXT", "NEXT").value, "PREV", "PREV") == Some(n)
  {
    if n.kind == "MIX_RGB" {
      BlendTypesDistinct();
      NextThenPrevToken(BLEND_TYPES, n.blendType);
    } else if n.kind == "MATH" {
      OperationsDistinct();
      NextThenPrevToken(OPERATIONS, n.operation);
    }
  }
}
