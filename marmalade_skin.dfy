/**
 * The name sanitisers of the Marmalade exporter and the bone-set key under
 * which it groups skinned vertices: a vertex influenced by the vertex
 * groups g1, ..., gk (at most four are kept) is filed under the key
 * 2^g1 + ... + 2^gk, with the kept group indices sorted.
 */
module MarmaladeSkin {
  import opened MarmaladeGeo

  // ------------------------------------------------------------ names

  /** Python's `string.punctuation`. */
  const PUNCTUATION: string := "!\"#$%&'()*+,-./:;<=>?@[\\]^_`{|}~"

  /** The characters `StripName` replaces: the punctuation and the space. */
  const STRIP_CHARS: string := PUNCTUATION + " "

  /** `str.replace` of one character by another. */
  function ReplaceChar(s: string, c: char, d: char): string
  {
    seq(|s|, i requires 0 <= i < |s| => if s[i] == c then d else s[i])
  }

  /** The name with every punctuation character and space turned into `_`. */
  function Stripped(name: string): string
  {
    seq(|name|, i requires 0 <= i < |name| => if name[i] in STRIP_CHARS then '_' else name[i])
  }

  /** `StripName`: `ReplaceSet` replaces each of the characters in turn. */
  method StripName(name: string) returns (r: string)
    ensures r == Stripped(name)
  {
    var oldSet := STRIP_CHARS;
    r := name;
    for k := 0 to |oldSet|
      invariant |r| == |name|
      invariant forall i :: 0 <= i < |name| ==> r[i] == (if name[i] in oldSet[..k] then '_' else name[i])
    {
      r := ReplaceChar(r, oldSet[k], '_');
      assert forall c :: c in oldSet[..k + 1] <==> c in oldSet[..k] || c == oldSet[k];
    }
    assert oldSet[..|oldSet|] == oldSet;
  }

  /**
   * The stripped name is as long as the name, keeps every other character
   * in place, and holds no space and no punctuation but `_`.
   */
  lemma StrippedClean(name: string)
    ensures |Stripped(name)| == |name|
    ensures forall i :: 0 <= i < |name| && name[i] !in STRIP_CHARS ==> Stripped(name)[i] == name[i]
    ensures forall i :: 0 <= i < |name| ==> Stripped(name)[i] == '_' || Stripped(name)[i] !in STRIP_CHARS
    ensures ' ' !in Stripped(name)
  {
    assert STRIP_CHARS[32] == ' ';
  }

  /** Stripping a stripped name changes nothing. */
  lemma StrippedIdempotent(name: string)
    ensures Stripped(Stripped(name)) == Stripped(name)
  {
    assert STRIP_CHARS[26] == '_';
  }

  /** `StripBoneName`: the name with its spaces removed. */
  function StripBoneName(name: string): (r: string)
    ensures ' ' !in r && |r| <= |name|
    ensures forall c :: c != ' ' ==> multiset(r)[c] == multiset(name)[c]
  {
    if name == [] then []
    else
      assert name == [name[0]] + name[1..];
      (if name[0] == ' ' then [] else [name[0]]) + StripBoneName(name[1..])
  }

  /** A name without spaces is kept as it is, so stripping twice is stripping once. */
  lemma {:induction false} StripBoneNameKeeps(name: string)
    requires ' ' !in name
    ensures StripBoneName(name) == name
  {
    if name != [] {
      StripBoneNameKeeps(name[1..]);
      assert name == [name[0]] + name[1..];
    }
  }

  // ---------------------------------------------------------- bone keys

  function Pow2(n: nat): (r: nat)
    ensures r >= 1
  {
    if n == 0 then 1 else 2 * Pow2(n - 1)
  }

  /** The bone key of a list of vertex groups: the sum of two to the power of each. */
  function Key(groups: seq<nat>): nat
  {
    if groups == [] then 0 else Key(groups[..|groups| - 1]) + Pow2(groups[|groups| - 1])
  }

  /** The groups that count: the first four. */
  function Used(groups: seq<nat>): (r: seq<nat>)
  {
    if |groups| <= 4 then groups else groups[..4]
  }

  predicate Ascending(s: seq<nat>)
  {
    forall i, j :: 0 <= i < j < |s| ==> s[i] <= s[j]
  }

  predicate StrictlyAscending(s: seq<nat>)
  {
    forall i, j :: 0 <= i < j < |s| ==> s[i] < s[j]
  }

  /** `x` put into an ascending list at its place. */
  function Insert(x: nat, s: seq<nat>): seq<nat>
  {
    if s == [] then [x]
    else if x <= s[0] then [x] + s
    else [s[0]] + Insert(x, s[1..])
  }

  /** Inserting into an ascending list keeps it ascending and adds `x` once. */
  lemma {:induction false} InsertSorted(x: nat, s: seq<nat>)
    requires Ascending(s)
    ensures Ascending(Insert(x, s)) && multiset(Insert(x, s)) == multiset(s) + multiset{x}
  {
    if s == [] {
    } else if x <= s[0] {
      AscendingCons(x, s);
    } else {
      var rest := Insert(x, s[1..]);
      InsertSorted(x, s[1..]);
      InsertBehind(x, s, rest);
      assert Insert(x, s) == [s[0]] + rest;
    }
  }

  /** A value no larger than the head of an ascending list can go in front. */
  lemma AscendingCons(x: nat, s: seq<nat>)
    requires Ascending(s) && s != [] && x <= s[0]
    ensures Ascending([x] + s) && multiset([x] + s) == multiset(s) + multiset{x}
  {
    var r := [x] + s;
    forall i, j | 0 <= i < j < |r|
      ensures r[i] <= r[j]
    {
      if i > 0 {
        assert r[i] == s[i - 1] && r[j] == s[j - 1];
      } else {
        assert r[j] == s[j - 1] && s[0] <= s[j - 1];
      }
    }
  }

  /** The head of `s` followed by `x` inserted into the tail. */
  lemma InsertBehind(x: nat, s: seq<nat>, rest: seq<nat>)
    requires Ascending(s) && s != [] && s[0] < x
    requires Ascending(rest) && multiset(rest) == multiset(s[1..]) + multiset{x}
    ensures Ascending([s[0]] + rest) && multiset([s[0]] + rest) == multiset(s) + multiset{x}
  {
    var r := [s[0]] + rest;
    assert multiset(s) == multiset{s[0]} + multiset(s[1..]) by {
      assert s == [s[0]] + s[1..];
    }
    forall i, j | 0 <= i < j < |r|
      ensures r[i] <= r[j]
    {
      assert r[j] == rest[j - 1];
      if i > 0 {
        assert r[i] == rest[i - 1];
      } else {
        LowerBoundKept(s[0], x, s[1..], rest, j - 1);
      }
    }
  }

  /** An element of the list built from `t` and `x` is at least any bound of both. */
  lemma LowerBoundKept(b: nat, x: nat, t: seq<nat>, rest: seq<nat>, k: nat)
    requires b <= x && (forall i :: 0 <= i < |t| ==> b <= t[i])
    requires multiset(rest) == multiset(t) + multiset{x} && k < |rest|
    ensures b <= rest[k]
  {
    assert rest[k] in multiset(rest);
  }

  /** `list.sort()` on group indices: an ascending permutation. */
  function SortAscending(s: seq<nat>): (r: seq<nat>)
    ensures Ascending(r) && multiset(r) == multiset(s)
  {
    if s == [] then []
    else
      var init, last := s[..|s| - 1], s[|s| - 1];
      assert s == init + [last];
      var sorted := SortAscending(init);
      InsertSorted(last, sorted);
      Insert(last, sorted)
  }

  /** `mapVertexGroupNames` after naming each of the vertex's groups. */
  function Named(names: map<nat, string>, groups: seq<nat>, groupNames: seq<string>): map<nat, string>
    requires forall i :: 0 <= i < |groups| ==> groups[i] < |groupNames|
  {
    if groups == [] then names
    else Named(names, groups[..|groups| - 1], groupNames)[groups[|groups| - 1] := StripBoneName(groupNames[groups[|groups| - 1]])]
  }

  /** Every skin set is filed under the key of its bones. */
  predicate Keyed(useBonesDict: map<nat, SkinSet>)
  {
    forall k :: k in useBonesDict ==> Key(useBonesDict[k].useBones) == k
  }

  /**
   * The skin part of `AddVertexToDicionarySkinWeights` for one vertex in
   * the groups `groups` (vertex group indices into `groupNames`): each
   * group's name is recorded, the first four groups make the key and the
   * sorted bone list, and the vertex's weight line joins the skin set of
   * that key (a new one when the key is new). A vertex in no group leaves
   * the skin sets as they are.
   */
  method AddVertexSkin(groups: seq<nat>, groupNames: seq<string>, weightLine: string,
                       useBonesDict: map<nat, SkinSet>, mapVertexGroupNames: map<nat, string>)
    returns (key: nat, indices: seq<nat>, useBonesDict': map<nat, SkinSet>, mapVertexGroupNames': map<nat, string>)
    requires forall i :: 0 <= i < |groups| ==> groups[i] < |groupNames|
    ensures key == Key(Used(groups))
    ensures Ascending(indices) && multiset(indices) == multiset(Used(groups))
    ensures mapVertexGroupNames' == Named(mapVertexGroupNames, groups, groupNames)
    ensures groups == [] ==> useBonesDict' == useBonesDict
    ensures groups != [] ==> useBonesDict' == useBonesDict[key :=
      if key in useBonesDict then useBonesDict[key].(vertWeights := useBonesDict[key].vertWeights + [weightLine])
      else SkinSet(indices, [weightLine])]
  {
    key, indices, mapVertexGroupNames' := UseBones(groups, groupNames, mapVertexGroupNames);
    useBonesDict' := useBonesDict;
    if |indices| > 0 {
      indices := SortAscending(indices);
      if key !in useBonesDict' {
        useBonesDict' := useBonesDict'[key := SkinSet(indices, [weightLine])];
      } else {
        var pair := useBonesDict'[key];
        useBonesDict' := useBonesDict'[key := pair.(vertWeights := pair.vertWeights + [weightLine])];
      }
    }
  }

  /** The loop over the vertex's groups: names, key and the groups kept, unsorted. */
  method UseBones(groups: seq<nat>, groupNames: seq<string>, mapVertexGroupNames: map<nat, string>)
    returns (key: nat, indices: seq<nat>, mapVertexGroupNames': map<nat, string>)
    requires forall i :: 0 <= i < |groups| ==> groups[i] < |groupNames|
    ensures indices == Used(groups) && key == Key(indices)
    ensures mapVertexGroupNames' == Named(mapVertexGroupNames, groups, groupNames)
  {
    key := 0;
    indices := [];
    mapVertexGroupNames' := mapVertexGroupNames;
    for i := 0 to |groups|
      invariant indices == Used(groups[..i]) && key == Key(indices)
      invariant mapVertexGroupNames' == Named(mapVertexGroupNames, groups[..i], groupNames)
    {
      mapVertexGroupNames' := NameGroup(mapVertexGroupNames', groups, groupNames, mapVertexGroupNames, i);
      if |indices| < 4 {
        key := key + Pow2(groups[i]);
        indices := indices + [groups[i]];
        assert indices[..|indices| - 1] == groups[..i];
      }
      UsedStep(groups, i, indices);
    }
    assert groups[..|groups|] == groups;
  }

  /** One name recorded. */
  function NameGroup(names: map<nat, string>, groups: seq<nat>, groupNames: seq<string>, names0: map<nat, string>, i: nat): (r: map<nat, string>)
    requires i < |groups| && forall k :: 0 <= k < |groups| ==> groups[k] < |groupNames|
    requires names == Named(names0, groups[..i], groupNames)
    ensures r == Named(names0, groups[..i + 1], groupNames)
  {
    assert groups[..i + 1][..i] == groups[..i];
    names[groups[i] := StripBoneName(groupNames[groups[i]])]
  }

  /** The groups kept after one more group. */
  lemma UsedStep(groups: seq<nat>, i: nat, indices: seq<nat>)
    requires i < |groups|
    requires |Used(groups[..i])| < 4 ==> indices == Used(groups[..i]) + [groups[i]]
    requires |Used(groups[..i])| >= 4 ==> indices == Used(groups[..i])
    ensures indices == Used(groups[..i + 1])
  {
    assert groups[..i + 1] == groups[..i] + [groups[i]];
    if i >= 4 {
      assert groups[..i + 1][..4] == groups[..i][..4];
    }
  }

  /** Every group of the vertex is named, by its name without spaces; other names stay. */
  lemma {:induction false} NamedGroups(names: map<nat, string>, groups: seq<nat>, groupNames: seq<string>)
    requires forall i :: 0 <= i < |groups| ==> groups[i] < |groupNames|
    ensures forall g :: g in Named(names, groups, groupNames) <==> g in names || g in groups
    ensures forall i :: 0 <= i < |groups| ==>
      Named(names, groups, groupNames)[groups[i]] == StripBoneName(groupNames[groups[i]])
    ensures forall g :: g in names && g !in groups ==> Named(names, groups, groupNames)[g] == names[g]
  {
    if groups != [] {
      var init, last := groups[..|groups| - 1], groups[|groups| - 1];
      NamedGroups(names, init, groupNames);
      NamedLast(Named(names, init, groupNames), groups, StripBoneName(groupNames[last]));
    }
  }

  /** Naming the last group after naming the ones before it. */
  lemma NamedLast(r: map<nat, string>, groups: seq<nat>, v: string)
    requires groups != []
    ensures var init, last := groups[..|groups| - 1], groups[|groups| - 1];
      (forall g :: g in groups <==> g in init || g == last) &&
      (forall g :: g in r[last := v] <==> g in r || g == last) &&
      (forall g :: g != last && g in r ==> r[last := v][g] == r[g])
  {
    assert groups == groups[..|groups| - 1] + [groups[|groups| - 1]];
  }

  /** The key of a list of groups is that of its first part plus that of the rest. */
  lemma {:induction false} KeyAppend(a: seq<nat>, b: seq<nat>)
    ensures Key(a + b) == Key(a) + Key(b)
    decreases |b|
  {
    if b == [] {
      assert a + b == a;
    } else {
      KeyAppend(a, b[..|b| - 1]);
      assert (a + b)[..|a + b| - 1] == a + b[..|b| - 1];
    }
  }

  /** The key does not depend on the order of the groups. */
  lemma {:induction false} KeyPermutation(a: seq<nat>, b: seq<nat>)
    requires multiset(a) == multiset(b)
    ensures Key(a) == Key(b)
    decreases |a|
  {
    if a == [] {
      assert |b| == |multiset(b)| == 0;
    } else {
      var x := a[|a| - 1];
      var init := a[..|a| - 1];
      assert a == init + [x];
      assert multiset(init) == multiset(a) - multiset{x};
      assert x in multiset(b);
      var j :| 0 <= j < |b| && b[j] == x;
      var rest := KeyRemove(b, j);
      KeyPermutation(init, rest);
    }
  }

  /** Taking one group out of a list takes its power of two out of the key. */
  lemma KeyRemove(b: seq<nat>, j: nat) returns (rest: seq<nat>)
    requires j < |b|
    ensures multiset(rest) == multiset(b) - multiset{b[j]}
    ensures Key(b) == Key(rest) + Pow2(b[j])
  {
    var x, front, back := b[j], b[..j], b[j + 1..];
    rest := front + back;
    assert b == front + ([x] + back);
    KeyAppend(front, [x] + back);
    KeyAppend([x], back);
    KeyAppend(front, back);
    assert Key([x]) == Pow2(x) by {
      assert [x][..0] == [];
    }
  }

  lemma {:induction false} Pow2Monotone(a: nat, b: nat)
    requires a <= b
    ensures Pow2(a) <= Pow2(b)
    decreases b
  {
    if a < b {
      Pow2Monotone(a, b - 1);
    }
  }

  /** For strictly ascending groups the highest one fixes the key's highest bit. */
  lemma {:induction false} KeyBounds(s: seq<nat>)
    requires StrictlyAscending(s) && s != []
    ensures Pow2(s[|s| - 1]) <= Key(s) < Pow2(s[|s| - 1] + 1)
  {
    var init := s[..|s| - 1];
    if init != [] {
      KeyBounds(init);
      Pow2Monotone(init[|init| - 1] + 1, s[|s| - 1]);
    }
  }

  /** Strictly ascending group lists with the same key are the same list. */
  lemma {:induction false} KeyInjective(a: seq<nat>, b: seq<nat>)
    requires StrictlyAscending(a) && StrictlyAscending(b) && Key(a) == Key(b)
    ensures a == b
    decreases |a|
  {
    if a != [] && b != [] {
      var a', b', m := PeelTop(a, b);
      KeyInjective(a', b');
    } else if a != [] {
      KeyBounds(a);
    } else if b != [] {
      KeyBounds(b);
    }
  }

  /** Strictly ascending lists with the same key end in the same group, and what comes before has the same key. */
  lemma PeelTop(a: seq<nat>, b: seq<nat>) returns (a': seq<nat>, b': seq<nat>, m: nat)
    requires StrictlyAscending(a) && StrictlyAscending(b) && Key(a) == Key(b)
    requires a != [] && b != []
    ensures a == a' + [m] && b == b' + [m] && |a'| < |a|
    ensures StrictlyAscending(a') && StrictlyAscending(b') && Key(a') == Key(b')
  {
    SameTopGroup(a, b);
    a', b', m := a[..|a| - 1], b[..|b| - 1], a[|a| - 1];
    assert a == a' + [m] && Key(a) == Key(a') + Pow2(m);
    assert b == b' + [m] && Key(b) == Key(b') + Pow2(m);
  }

  /** Strictly ascending lists with the same key end in the same group. */
  lemma SameTopGroup(a: seq<nat>, b: seq<nat>)
    requires StrictlyAscending(a) && StrictlyAscending(b) && Key(a) == Key(b)
    requires a != [] && b != []
    ensures a[|a| - 1] == b[|b| - 1]
  {
    var ma, mb := a[|a| - 1], b[|b| - 1];
    KeyBounds(a);
    KeyBounds(b);
    if ma < mb {
      Pow2Monotone(ma + 1, mb);
    } else if mb < ma {
      Pow2Monotone(mb + 1, ma);
    }
  }

  predicate NoRepeats(s: seq<nat>)
  {
    forall i, j :: 0 <= i < j < |s| ==> s[i] != s[j]
  }

  /** A value present twice in a list counts twice in its multiset. */
  lemma TwiceInMultiset(s: seq<nat>, i: nat, j: nat)
    requires i < j < |s| && s[i] == s[j]
    ensures multiset(s)[s[i]] >= 2
  {
    assert s == s[..i] + [s[i]] + s[i + 1..j] + [s[j]] + s[j + 1..];
  }

  /** A list without repeats holds each value at most once. */
  lemma {:induction false} NoRepeatsOnce(s: seq<nat>, x: nat)
    requires NoRepeats(s)
    ensures multiset(s)[x] <= 1
  {
    if s != [] {
      var init := s[..|s| - 1];
      NoRepeatsOnce(init, x);
      assert s == init + [s[|s| - 1]];
      if x == s[|s| - 1] {
        assert forall k :: 0 <= k < |init| ==> init[k] == s[k] != s[|s| - 1];
        assert x !in multiset(init);
      }
    }
  }

  /** Sorting a list without repeats gives a strictly ascending list. */
  lemma SortedWithoutRepeats(s: seq<nat>)
    requires NoRepeats(s)
    ensures StrictlyAscending(SortAscending(s))
  {
    var r := SortAscending(s);
    forall i, j | 0 <= i < j < |r|
      ensures r[i] < r[j]
    {
      if r[i] == r[j] {
        TwiceInMultiset(r, i, j);
        NoRepeatsOnce(s, r[i]);
        assert false;
      }
    }
  }

  /**
   * For vertices in groups without repeats, two keys are equal exactly
   * when the groups used are the same, whatever their order: a key names
   * one bone set.
   */
  lemma KeyIdentifiesBones(g1: seq<nat>, g2: seq<nat>)
    requires NoRepeats(g1) && NoRepeats(g2)
    ensures Key(g1) == Key(g2) <==> multiset(g1) == multiset(g2)
  {
    if multiset(g1) == multiset(g2) {
      KeyPermutation(g1, g2);
    }
    if Key(g1) == Key(g2) {
      var s1, s2 := SortAscending(g1), SortAscending(g2);
      KeyPermutation(g1, s1);
      KeyPermutation(g2, s2);
      SortedWithoutRepeats(g1);
      SortedWithoutRepeats(g2);
      KeyInjective(s1, s2);
    }
  }

  /** Filing a vertex keeps every skin set under the key of its bones. */
  lemma AddVertexSkinKeyed(groups: seq<nat>, indices: seq<nat>, key: nat, weightLine: string, useBonesDict: map<nat, SkinSet>)
    requires Keyed(useBonesDict) && key == Key(Used(groups)) && multiset(indices) == multiset(Used(groups))
    ensures Keyed(useBonesDict[key :=
      if key in useBonesDict then useBonesDict[key].(vertWeights := useBonesDict[key].vertWeights + [weightLine])
      else SkinSet(indices, [weightLine])])
  {
    KeyPermutation(indices, Used(groups));
  }
}
