/**
 * The text-record part of the PDB importer: the ATOM/HETATM/TER line loop
 * that builds the atom list and the atom counter, the de-duplication of
 * atom types, and the CONECT loop that cuts fixed-width atom numbers into
 * sticks.
 *
 * A file is the sequence of its lines as iterating over the file yields
 * them: each non-empty, with its line break when it has one. Only ASCII
 * letters, digits and white space are classified.
 */
module PdbImport {
  import opened Wrappers

  /** Lines as a text file yields them are never empty. */
  predicate FileLines(lines: seq<string>)
  {
    forall i :: 0 <= i < |lines| ==> lines[i] != []
  }

  // ------------------------------------------------------------ text

  /** A Python slice `s[i:j]`. */
  function Slice(s: string, i: nat, j: nat): (r: string)
    requires i <= j
    ensures |r| <= j - i
    ensures i <= |s| ==> i + |r| <= |s| && r == s[i..i + |r|]
    ensures i > |s| ==> r == []
    ensures j <= |s| ==> |r| == j - i
  {
    if j <= |s| then s[i..j] else if i <= |s| then s[i..] else []
  }

  /** `s[k:]`. */
  function Drop(s: string, k: nat): (r: string)
    ensures |r| == if k <= |s| then |s| - k else 0
  {
    if k <= |s| then s[k..] else []
  }

  /** `s[:-1]`. */
  function Chop(s: string): string
  {
    if s == [] then [] else s[..|s| - 1]
  }

  predicate IsUpperChar(c: char) { 'A' <= c <= 'Z' }
  predicate IsLowerChar(c: char) { 'a' <= c <= 'z' }

  /** `str.isupper` on a string of at most one character. */
  predicate IsUpper(s: string) { |s| == 1 && IsUpperChar(s[0]) }

  /** `str.islower` on a string of at most one character. */
  predicate IsLower(s: string) { |s| == 1 && IsLowerChar(s[0]) }

  function UpperChar(c: char): (r: char)
    ensures !IsLowerChar(r)
  {
    if IsLowerChar(c) then (c as int - 32) as char else c
  }

  /** `str.upper`. */
  function Upper(s: string): (r: string)
    ensures |r| == |s| && forall i :: 0 <= i < |s| ==> r[i] == UpperChar(s[i])
  {
    if s == [] then [] else [UpperChar(s[0])] + Upper(s[1..])
  }

  /** `t in s` for strings. */
  function Contains(s: string, t: string): bool
  {
    if |s| < |t| then false
    else if s[..|t|] == t then true
    else s != [] && Contains(s[1..], t)
  }

  /** `line.split(' ')[0]`: the text before the first space. */
  function HeadWord(line: string): (r: string)
    ensures |r| <= |line| && r == line[..|r|] && ' ' !in r
    ensures |r| < |line| ==> line[|r|] == ' '
  {
    if line == [] || line[0] == ' ' then [] else [line[0]] + HeadWord(line[1..])
  }

  /** The white space `str.split` and `str.rstrip` cut at. */
  predicate IsSpace(c: char)
  {
    c == ' ' || '\t' <= c <= '\r' || '\U{1C}' <= c <= '\U{1F}'
  }

  /** `str.rstrip()`. */
  function RStrip(s: string): (r: string)
    ensures |r| <= |s| && r == s[..|r|] && (r == [] || !IsSpace(r[|r| - 1]))
    ensures forall k :: |r| <= k < |s| ==> IsSpace(s[k])
  {
    if s == [] || !IsSpace(s[|s| - 1]) then s else RStrip(s[..|s| - 1])
  }

  /** The first white-space-separated word of `s`, `s.split()[0]`, or empty when there is none. */
  function FirstWord(s: string): (r: string)
    ensures forall k :: 0 <= k < |r| ==> !IsSpace(r[k])
  {
    if s == [] then []
    else if IsSpace(s[0]) then FirstWord(s[1..])
    else TakeWord(s)
  }

  /** The first word is the word that follows the leading white space: empty only when `s` is blank. */
  lemma {:induction false} FirstWordAfterSpaces(s: string)
    ensures exists n :: LeadingSpaces(s, n) && FirstWord(s) == TakeWord(s[n..])
  {
    if s == [] || !IsSpace(s[0]) {
      assert LeadingSpaces(s, 0) && s[0..] == s;
    } else {
      FirstWordAfterSpaces(s[1..]);
      var n :| LeadingSpaces(s[1..], n) && FirstWord(s[1..]) == TakeWord(s[1..][n..]);
      assert LeadingSpaces(s, n + 1) && s[1..][n..] == s[n + 1..];
    }
  }

  /** `s` opens with exactly `n` white-space characters. */
  predicate LeadingSpaces(s: string, n: int)
  {
    0 <= n <= |s| && (forall k :: 0 <= k < n ==> IsSpace(s[k])) && (n < |s| ==> !IsSpace(s[n]))
  }

  function TakeWord(s: string): (r: string)
    ensures |r| <= |s| && r == s[..|r|] && forall k :: 0 <= k < |r| ==> !IsSpace(r[k])
    ensures |r| < |s| ==> IsSpace(s[|r|])
  {
    if s == [] || IsSpace(s[0]) then [] else [s[0]] + TakeWord(s[1..])
  }

  /** `str.isdigit`. */
  predicate IsDigits(s: string)
  {
    s != [] && forall k :: 0 <= k < |s| ==> '0' <= s[k] <= '9'
  }

  /** `int` of a string of digits. */
  function DigitsValue(s: string): nat
    requires IsDigits(s)
  {
    if |s| == 1 then s[0] as nat - '0' as nat
    else DigitsValue(s[..|s| - 1]) * 10 + (s[|s| - 1] as nat - '0' as nat)
  }

  // ---------------------------------------------------------- elements

  /** An entry of the element table: its symbol and its name (radii and colour are not modelled). */
  datatype Element = Element(shortName: string, name: string)

  /**
   * An atom record: its element symbol, its name, and the index of the
   * table entry its radius and colour are taken from.
   */
  datatype Atom = Atom(element: string, name: string, source: nat)

  /**
   * The element symbol of an ATOM/HETATM line: the character at column 13
   * when it is upper case, followed by the one at 14 when that is lower
   * case; otherwise the character at 12, followed by the one at 13 when the
   * first is upper case and the second lower case.
   */
  function ShortName(line: string): (r: string)
    ensures |r| <= 2
    ensures r == Slice(line, 13, 13 + |r|) || r == Slice(line, 12, 12 + |r|)
    ensures |r| == 2 ==> IsUpperChar(r[0]) && IsLowerChar(r[1])
    ensures IsUpper(Slice(line, 13, 14)) ==> r == Slice(line, 13, 13 + |r|) && |r| >= 1
  {
    var c13 := Slice(line, 13, 14);
    if IsUpper(c13) then
      if IsLower(Slice(line, 14, 15)) then Slice(line, 13, 15) else c13
    else
      var c12 := Slice(line, 12, 13);
      if IsUpper(c12) && IsLower(c13) then Slice(line, 12, 14) else c12
  }

  /** The first table entry whose symbol equals `symbol` ignoring case. */
  function FindElement(elements: seq<Element>, symbol: string): (r: Option<nat>)
    ensures r.Some? ==> r.value < |elements| && Upper(elements[r.value].shortName) == Upper(symbol)
    ensures r.Some? ==> forall k :: 0 <= k < r.value ==> Upper(elements[k].shortName) != Upper(symbol)
    ensures r.None? ==> forall k :: 0 <= k < |elements| ==> Upper(elements[k].shortName) != Upper(symbol)
  {
    if elements == [] then None
    else if Upper(elements[0].shortName) == Upper(symbol) then Some(0)
    else match FindElement(elements[1..], symbol)
      case None => None
      case Some(k) => Some(k + 1)
  }

  /**
   * The atom of a symbol: the first matching table entry; with none, a
   * vacancy (third-last entry) for a symbol holding `X`, otherwise an
   * unknown atom named by its upper-cased symbol (second-last entry).
   */
  function AtomOf(elements: seq<Element>, symbol: string): (a: Atom)
    requires |elements| >= 3
    ensures a.source < |elements|
  {
    match FindElement(elements, symbol)
    case Some(i) => Atom(Upper(elements[i].shortName), elements[i].name, i)
    case None =>
      if 'X' in symbol then Atom("VAC", "Vacancy", |elements| - 3)
      else Atom(Upper(symbol), Upper(Upper(symbol)), |elements| - 2)
  }

  lemma AtomOfCases(elements: seq<Element>, symbol: string)
    requires |elements| >= 3
    ensures var a := AtomOf(elements, symbol);
      (a.source < |elements| - 3 ==> a.element == Upper(elements[a.source].shortName) && a.name == elements[a.source].name) &&
      (FindElement(elements, symbol).None? ==>
        (if 'X' in symbol then a == Atom("VAC", "Vacancy", |elements| - 3)
         else a.element == Upper(symbol) && a.name == Upper(symbol) && a.source == |elements| - 2))
  {
    UpperIdempotent(symbol);
  }

  lemma UpperIdempotent(s: string)
    ensures Upper(Upper(s)) == Upper(s)
  {
  }

  // --------------------------------------------------------- atom lines

  /** The head word of a line where the atom records start. */
  predicate IsAtomHead(line: string)
  {
    Contains(HeadWord(line), "ATOM") || Contains(HeadWord(line), "HETATM")
  }

  /** The line the atom loop starts on: the first atom record, or the last line when there is none. */
  function AtomStart(lines: seq<string>): (k: nat)
    requires lines != []
    ensures k < |lines| && forall i :: 0 <= i < k ==> !IsAtomHead(lines[i])
    ensures IsAtomHead(lines[k]) || k == |lines| - 1
  {
    AtomStartFrom(lines, 0)
  }

  function AtomStartFrom(lines: seq<string>, i: nat): (k: nat)
    requires i < |lines|
    ensures i <= k < |lines| && forall m :: i <= m < k ==> !IsAtomHead(lines[m])
    ensures IsAtomHead(lines[k]) || k == |lines| - 1
    decreases |lines| - i
  {
    if IsAtomHead(lines[i]) || i == |lines| - 1 then i else AtomStartFrom(lines, i + 1)
  }

  /** The lines read after line `k - 1`, each without its last character, up to the first that is then empty. */
  function ChoppedFrom(lines: seq<string>, k: nat): seq<string>
    decreases |lines| - k
  {
    if k >= |lines| || Chop(lines[k]) == [] then []
    else [Chop(lines[k])] + ChoppedFrom(lines, k + 1)
  }

  /** The lines the atom loop handles: the start line as it is, then the following ones chopped. */
  function AtomLines(lines: seq<string>): seq<string>
    requires lines != []
  {
    [lines[AtomStart(lines)]] + ChoppedFrom(lines, AtomStart(lines) + 1)
  }

  /** What the loop appends for a line: nothing for TER, an atom for ATOM/HETATM, nothing otherwise. */
  function LineAtom(elements: seq<Element>, line: string): seq<Atom>
    requires |elements| >= 3
  {
    if Contains(line, "TER") then []
    else if Contains(line, "ATOM") || Contains(line, "HETATM") then [AtomOf(elements, ShortName(line))]
    else []
  }

  /** Whether the loop counts a line: TER, ATOM and HETATM lines. */
  function Counted(line: string): nat
  {
    if Contains(line, "TER") || Contains(line, "ATOM") || Contains(line, "HETATM") then 1 else 0
  }

  function AtomsOf(elements: seq<Element>, ls: seq<string>): seq<Atom>
    requires |elements| >= 3
  {
    if ls == [] then [] else AtomsOf(elements, ls[..|ls| - 1]) + LineAtom(elements, ls[|ls| - 1])
  }

  function CountOf(ls: seq<string>): nat
  {
    if ls == [] then 0 else CountOf(ls[..|ls| - 1]) + Counted(ls[|ls| - 1])
  }

  function TerCount(ls: seq<string>): nat
  {
    if ls == [] then 0 else TerCount(ls[..|ls| - 1]) + (if Contains(ls[|ls| - 1], "TER") then 1 else 0)
  }

  /** The atoms read and the counter `Number_of_total_atoms`. */
  datatype AtomSection = AtomSection(atoms: seq<Atom>, total: nat)

  /** The line `readline` gives after line `k - 1`, without its last character (empty at the end of the file). */
  function ReadChopped(lines: seq<string>, k: nat): string
  {
    if k < |lines| then Chop(lines[k]) else []
  }

  /** The lines still to be handled when the current line is `line` and the next read is line `k`. */
  function Pending(lines: seq<string>, line: string, k: nat): seq<string>
  {
    if line == [] then [] else [line] + ChoppedFrom(lines, k)
  }

  lemma PendingStep(lines: seq<string>, line: string, k: nat)
    requires line != []
    ensures Pending(lines, line, k) == [line] + Pending(lines, ReadChopped(lines, k), k + 1)
  {
  }

  /** The first loop of `DEF_atom_pdb_main`, over the lines up to the first atom record. */
  method FindAtomStart(lines: seq<string>) returns (start: nat)
    requires lines != []
    ensures start == AtomStart(lines)
  {
    start := 0;
    while start < |lines| - 1 && !IsAtomHead(lines[start])
      invariant 0 <= start <= |lines| - 1
      invariant AtomStartFrom(lines, start) == AtomStart(lines)
    {
      start := start + 1;
    }
  }

  /**
   * The element lookup loop: the first table entry whose symbol matches,
   * else the vacancy or unknown-atom fallback.
   */
  method LookUpElement(elements: seq<Element>, shortName: string) returns (atom: Atom)
    requires |elements| >= 3
    ensures atom == AtomOf(elements, shortName)
  {
    for e := 0 to |elements|
      invariant forall k :: 0 <= k < e ==> Upper(elements[k].shortName) != Upper(shortName)
    {
      if Upper(shortName) == Upper(elements[e].shortName) {
        FindElementFirst(elements, shortName, e);
        return Atom(Upper(elements[e].shortName), elements[e].name, e);
      }
    }
    if 'X' in shortName {
      atom := Atom("VAC", "Vacancy", |elements| - 3);
    } else {
      var upper := Upper(shortName);
      atom := Atom(upper, Upper(upper), |elements| - 2);
    }
  }

  lemma FindElementFirst(elements: seq<Element>, symbol: string, e: nat)
    requires e < |elements| && Upper(elements[e].shortName) == Upper(symbol)
    requires forall k :: 0 <= k < e ==> Upper(elements[k].shortName) != Upper(symbol)
    ensures FindElement(elements, symbol) == Some(e)
  {
  }

  /** One turn of the atom loop: a TER line is counted, an ATOM/HETATM line is counted and appends its atom. */
  method HandleAtomLine(atoms: seq<Atom>, j: nat, line: string, elements: seq<Element>) returns (atoms': seq<Atom>, j': nat)
    requires |elements| >= 3
    ensures atoms' == atoms + LineAtom(elements, line) && j' == j + Counted(line)
  {
    atoms', j' := atoms, j;
    if Contains(line, "TER") {
      j' := j' + 1;
    } else if Contains(line, "ATOM") || Contains(line, "HETATM") {
      var shortName := ShortName(line);
      var atom := LookUpElement(elements, shortName);
      atoms' := atoms' + [atom];
      j' := j' + 1;
    }
  }

  /** The atom list the loop ends with when it holds `atoms` at the current line `line`, the next read being line `k`. */
  function AtomsAfter(elements: seq<Element>, lines: seq<string>, atoms: seq<Atom>, line: string, k: nat): seq<Atom>
    requires |elements| >= 3
    decreases |lines| + 1 - k, |line|
  {
    if line == [] then atoms
    else if k > |lines| then atoms + LineAtom(elements, line)
    else AtomsAfter(elements, lines, atoms + LineAtom(elements, line), ReadChopped(lines, k), k + 1)
  }

  /** The lines the loop counts from the current line `line`, the next read being line `k`. */
  function CountAfter(lines: seq<string>, line: string, k: nat): nat
    decreases |lines| + 1 - k, |line|
  {
    if line == [] then 0
    else if k > |lines| then Counted(line)
    else Counted(line) + CountAfter(lines, ReadChopped(lines, k), k + 1)
  }

  /** The atom loop from the current line `first`, the next read being line `next`. */
  method AtomLoop(lines: seq<string>, elements: seq<Element>, first: string, next: nat) returns (atoms: seq<Atom>, j: nat)
    requires |elements| >= 3 && next <= |lines|
    ensures atoms == AtomsAfter(elements, lines, [], first, next) && j == CountAfter(lines, first, next)
  {
    var line, k := first, next;
    atoms, j := [], 0;
    while line != []
      invariant k <= |lines| + 1 && (k > |lines| ==> line == [])
      invariant AtomsAfter(elements, lines, atoms, line, k) == AtomsAfter(elements, lines, [], first, next)
      invariant j + CountAfter(lines, line, k) == CountAfter(lines, first, next)
      decreases |lines| + 1 - k
    {
      atoms, j, line, k := AtomStep(lines, elements, atoms, j, line, k);
    }
  }

  /** One turn of the atom loop: handle the current line and read the next one. */
  method AtomStep(lines: seq<string>, elements: seq<Element>, atoms: seq<Atom>, j: nat, line: string, k: nat)
    returns (atoms': seq<Atom>, j': nat, line': string, k': nat)
    requires |elements| >= 3 && k <= |lines| && line != []
    ensures k' == k + 1 && (k' > |lines| ==> line' == [])
    ensures AtomsAfter(elements, lines, atoms', line', k') == AtomsAfter(elements, lines, atoms, line, k)
    ensures j' + CountAfter(lines, line', k') == j + CountAfter(lines, line, k)
  {
    atoms', j' := HandleAtomLine(atoms, j, line, elements);
    line' := ReadChopped(lines, k);
    k' := k + 1;
  }

  /** The loop ends with the atoms it holds followed by those of the lines still to be handled. */
  lemma {:induction false} AtomsAfterIsPending(elements: seq<Element>, lines: seq<string>, atoms: seq<Atom>, line: string, k: nat)
    requires |elements| >= 3 && k <= |lines|
    ensures AtomsAfter(elements, lines, atoms, line, k) == atoms + AtomsOf(elements, Pending(lines, line, k))
    decreases |lines| - k
  {
    if line != [] {
      var next := ReadChopped(lines, k);
      var here := LineAtom(elements, line);
      if k < |lines| {
        AtomsAfterIsPending(elements, lines, atoms + here, next, k + 1);
      }
      PendingStep(lines, line, k);
      ConsLineAtoms(elements, line, Pending(lines, next, k + 1));
      AppendAssoc(atoms, here, AtomsOf(elements, Pending(lines, next, k + 1)));
    }
  }

  /** The loop counts the lines still to be handled. */
  lemma {:induction false} CountAfterIsPending(lines: seq<string>, line: string, k: nat)
    requires k <= |lines|
    ensures CountAfter(lines, line, k) == CountOf(Pending(lines, line, k))
    decreases |lines| - k
  {
    if line != [] {
      var next := ReadChopped(lines, k);
      if k < |lines| {
        CountAfterIsPending(lines, next, k + 1);
      }
      PendingStep(lines, line, k);
      ConsLineCount(line, Pending(lines, next, k + 1));
    }
  }

  /** Handling a line and then the rest appends their atoms in that order. */
  lemma {:induction false} ConsLineAtoms(elements: seq<Element>, line: string, rest: seq<string>)
    requires |elements| >= 3
    ensures AtomsOf(elements, [line] + rest) == LineAtom(elements, line) + AtomsOf(elements, rest)
    decreases |rest|
  {
    var all := [line] + rest;
    if rest == [] {
      assert all[..0] == [];
    } else {
      var init, last := rest[..|rest| - 1], rest[|rest| - 1];
      ConsLineAtoms(elements, line, init);
      assert all[..|all| - 1] == [line] + init && all[|all| - 1] == last;
      LastLineAtoms(elements, all);
      LastLineAtoms(elements, rest);
      AppendAssoc(LineAtom(elements, line), AtomsOf(elements, init), LineAtom(elements, last));
    }
  }

  lemma AppendAssoc(a: seq<Atom>, b: seq<Atom>, c: seq<Atom>)
    ensures (a + b) + c == a + (b + c)
  {
  }

  /** The atoms of a list of lines are those of all but its last line, then the last line's. */
  lemma LastLineAtoms(elements: seq<Element>, ls: seq<string>)
    requires |elements| >= 3 && ls != []
    ensures AtomsOf(elements, ls) == AtomsOf(elements, ls[..|ls| - 1]) + LineAtom(elements, ls[|ls| - 1])
  {
  }

  lemma {:induction false} ConsLineCount(line: string, rest: seq<string>)
    ensures CountOf([line] + rest) == Counted(line) + CountOf(rest)
    decreases |rest|
  {
    var all := [line] + rest;
    if rest == [] {
      assert all[..0] == [];
    } else {
      var init := rest[..|rest| - 1];
      ConsLineCount(line, init);
      assert all[..|all| - 1] == [line] + init && all[|all| - 1] == rest[|rest| - 1];
    }
  }

  /**
   * The ATOM/HETATM/TER loop of `DEF_atom_pdb_main`. An empty file fails
   * (the loop variable is never bound).
   */
  method ReadAtoms(lines: seq<string>, elements: seq<Element>) returns (r: Result<AtomSection, string>)
    requires FileLines(lines) && |elements| >= 3
    ensures lines == [] <==> r.Failure?
    ensures r.Success? ==> r.value.atoms == AtomsOf(elements, AtomLines(lines)) &&
                           r.value.total == CountOf(AtomLines(lines))
  {
    if lines == [] {
      return Failure("empty file");
    }
    var start := FindAtomStart(lines);
    var atoms, j := AtomLoop(lines, elements, lines[start], start + 1);
    AtomsAfterIsPending(elements, lines, [], lines[start], start + 1);
    CountAfterIsPending(lines, lines[start], start + 1);
    AtomLinesFromStart(lines, start);
    return Success(AtomSection(atoms, j));
  }

  lemma AtomLinesFromStart(lines: seq<string>, start: nat)
    requires FileLines(lines) && lines != [] && start == AtomStart(lines)
    ensures Pending(lines, lines[start], start + 1) == AtomLines(lines)
  {
    assert lines[start] != [];
  }

  /** The counter is the number of atoms plus the number of TER lines. */
  lemma {:induction false} CountIsAtomsPlusTer(elements: seq<Element>, ls: seq<string>)
    requires |elements| >= 3
    ensures CountOf(ls) == |AtomsOf(elements, ls)| + TerCount(ls)
  {
    if ls != [] {
      CountIsAtomsPlusTer(elements, ls[..|ls| - 1]);
    }
  }

  /** Every line after the start line is handled without its last character. */
  lemma {:induction false} ChoppedFromAt(lines: seq<string>, k: nat, m: nat)
    requires m < |ChoppedFrom(lines, k)|
    ensures k + m < |lines| && ChoppedFrom(lines, k)[m] == Chop(lines[k + m])
    decreases m
  {
    if m > 0 {
      ChoppedFromAt(lines, k + 1, m - 1);
    }
  }

  /** The loop stops at the first line holding only its line break: no later line is read. */
  lemma {:induction false} StopsAtBlankLine(lines: seq<string>, k: nat, b: nat)
    requires k <= b < |lines| && |lines[b]| == 1
    ensures |ChoppedFrom(lines, k)| <= b - k
    decreases b - k
  {
    if k < b && Chop(lines[k]) != [] {
      StopsAtBlankLine(lines, k + 1, b);
    }
  }

  // ---------------------------------------------------------- atom types

  /** An entry of `atom_all_types_list`: the atom name, its element symbol, and the entry its colour is taken from. */
  datatype AtomType = AtomType(name: string, element: string, source: nat)

  function TypeOf(a: Atom): AtomType
  {
    AtomType(a.name, a.element, a.source)
  }

  predicate HasName(types: seq<AtomType>, name: string)
  {
    exists i :: 0 <= i < |types| && types[i].name == name
  }

  /** The type of each atom whose name has not been seen before, in order. */
  function Dedup(atoms: seq<Atom>): seq<AtomType>
  {
    if atoms == [] then []
    else
      var d := Dedup(atoms[..|atoms| - 1]);
      if HasName(d, atoms[|atoms| - 1].name) then d else d + [TypeOf(atoms[|atoms| - 1])]
  }

  /** The loop that builds `atom_all_types_list`. */
  method AtomTypes(atoms: seq<Atom>) returns (types: seq<AtomType>)
    ensures types == Dedup(atoms)
  {
    types := [];
    for i := 0 to |atoms|
      invariant types == Dedup(atoms[..i])
    {
      var found := NameSeen(types, atoms[i].name);
      if !found {
        types := types + [TypeOf(atoms[i])];
      }
      assert atoms[..i + 1][..i] == atoms[..i];
    }
    assert atoms[..|atoms|] == atoms;
  }

  /** The inner loop: whether a type already carries the name. */
  method NameSeen(types: seq<AtomType>, name: string) returns (found: bool)
    ensures found <==> HasName(types, name)
  {
    for t := 0 to |types|
      invariant forall w :: 0 <= w < t ==> types[w].name != name
    {
      if types[t].name == name {
        return true;
      }
    }
    return false;
  }

  /** The position of the first atom called `name`. */
  function FirstWith(atoms: seq<Atom>, name: string): (f: nat)
    requires HasNameAt(atoms, name)
    ensures f < |atoms| && atoms[f].name == name
    ensures forall k :: 0 <= k < f ==> atoms[k].name != name
  {
    if atoms[0].name == name then 0
    else
      assert HasNameAt(atoms[1..], name) by {
        var i :| 0 <= i < |atoms| && atoms[i].name == name;
        assert atoms[1..][i - 1].name == name;
      }
      1 + FirstWith(atoms[1..], name)
  }

  predicate HasNameAt(atoms: seq<Atom>, name: string)
  {
    exists i :: 0 <= i < |atoms| && atoms[i].name == name
  }

  /** No name appears twice among the types. */
  lemma {:induction false} DedupDistinct(atoms: seq<Atom>)
    ensures forall i, j :: 0 <= i < j < |Dedup(atoms)| ==> Dedup(atoms)[i].name != Dedup(atoms)[j].name
  {
    if atoms != [] {
      DedupDistinct(atoms[..|atoms| - 1]);
    }
  }

  /** The name of every atom appears among the types. */
  lemma {:induction false} DedupCovers(atoms: seq<Atom>)
    ensures forall k :: 0 <= k < |atoms| ==> HasName(Dedup(atoms), atoms[k].name)
  {
    if atoms != [] {
      var init := atoms[..|atoms| - 1];
      DedupCovers(init);
      var d := Dedup(init);
      forall k | 0 <= k < |atoms|
        ensures HasName(Dedup(atoms), atoms[k].name)
      {
        if k < |init| {
          assert HasName(d, init[k].name);
          var w :| 0 <= w < |d| && d[w].name == init[k].name;
          assert Dedup(atoms)[w] == d[w];
        } else if !HasName(d, atoms[k].name) {
          assert Dedup(atoms)[|d|].name == atoms[k].name;
        }
      }
    }
  }

  /** Every type is that of the first atom with its name. */
  lemma {:induction false} DedupFromFirst(atoms: seq<Atom>)
    ensures forall i :: 0 <= i < |Dedup(atoms)| ==>
      HasNameAt(atoms, Dedup(atoms)[i].name) && Dedup(atoms)[i] == TypeOf(atoms[FirstWith(atoms, Dedup(atoms)[i].name)])
  {
    if atoms != [] {
      var init := atoms[..|atoms| - 1];
      var last := atoms[|atoms| - 1];
      DedupFromFirst(init);
      var d := Dedup(init);
      forall i | 0 <= i < |Dedup(atoms)|
        ensures HasNameAt(atoms, Dedup(atoms)[i].name) && Dedup(atoms)[i] == TypeOf(atoms[FirstWith(atoms, Dedup(atoms)[i].name)])
      {
        if i < |d| {
          assert Dedup(atoms)[i] == d[i];
          FirstWithPrefix(init, atoms, d[i].name);
        } else {
          NewNameIsLast(atoms);
        }
      }
    }
  }

  /** A name the types of the earlier atoms lack first appears at the last atom. */
  lemma NewNameIsLast(atoms: seq<Atom>)
    requires atoms != [] && !HasName(Dedup(atoms[..|atoms| - 1]), atoms[|atoms| - 1].name)
    ensures HasNameAt(atoms, atoms[|atoms| - 1].name) && FirstWith(atoms, atoms[|atoms| - 1].name) == |atoms| - 1
  {
    var init := atoms[..|atoms| - 1];
    var name := atoms[|atoms| - 1].name;
    DedupCovers(init);
    assert HasNameAt(atoms, name) by {
      assert atoms[|atoms| - 1].name == name;
    }
  }

  /** The first atom called `a` comes before the first atom called `b`. */
  predicate FirstBefore(atoms: seq<Atom>, a: string, b: string)
  {
    HasNameAt(atoms, a) && HasNameAt(atoms, b) && FirstWith(atoms, a) < FirstWith(atoms, b)
  }

  /** The types come in the order of the first atoms of their names. */
  lemma DedupOrdered(atoms: seq<Atom>)
    ensures forall i, j :: 0 <= i < j < |Dedup(atoms)| ==> FirstBefore(atoms, Dedup(atoms)[i].name, Dedup(atoms)[j].name)
  {
    forall i, j | 0 <= i < j < |Dedup(atoms)|
      ensures FirstBefore(atoms, Dedup(atoms)[i].name, Dedup(atoms)[j].name)
    {
      DedupOrderedPair(atoms, i, j);
    }
  }

  lemma {:induction false} DedupOrderedPair(atoms: seq<Atom>, i: nat, j: nat)
    requires i < j < |Dedup(atoms)|
    ensures HasNameAt(atoms, Dedup(atoms)[i].name) && HasNameAt(atoms, Dedup(atoms)[j].name)
    ensures FirstWith(atoms, Dedup(atoms)[i].name) < FirstWith(atoms, Dedup(atoms)[j].name)
  {
    var init := atoms[..|atoms| - 1];
    var d := Dedup(init);
    DedupFromFirst(init);
    assert Dedup(atoms)[i] == d[i];
    FirstWithPrefix(init, atoms, d[i].name);
    if j < |d| {
      assert Dedup(atoms)[j] == d[j];
      DedupOrderedPair(init, i, j);
      FirstWithPrefix(init, atoms, d[j].name);
    } else {
      NewNameIsLast(atoms);
    }
  }

  lemma FirstWithPrefix(init: seq<Atom>, atoms: seq<Atom>, name: string)
    requires |init| <= |atoms| && init == atoms[..|init|] && HasNameAt(init, name)
    ensures HasNameAt(atoms, name) && FirstWith(atoms, name) == FirstWith(init, name)
  {
    var f := FirstWith(init, name);
    assert atoms[f] == init[f];
  }

  // -------------------------------------------------------------- CONECT

  /** The head word of a line where the CONECT records start. */
  predicate IsConectHead(line: string)
  {
    Contains(HeadWord(line), "CONECT")
  }

  /** The line the CONECT loop starts on: the first CONECT record, or the last line when there is none. */
  function ConectStart(lines: seq<string>): (k: nat)
    requires lines != []
    ensures k < |lines| && forall i :: 0 <= i < k ==> !IsConectHead(lines[i])
    ensures IsConectHead(lines[k]) || k == |lines| - 1
  {
    ConectStartFrom(lines, 0)
  }

  function ConectStartFrom(lines: seq<string>, i: nat): (k: nat)
    requires i < |lines|
    ensures i <= k < |lines| && forall m :: i <= m < k ==> !IsConectHead(lines[m])
    ensures IsConectHead(lines[k]) || k == |lines| - 1
    decreases |lines| - i
  {
    if IsConectHead(lines[i]) || i == |lines| - 1 then i else ConectStartFrom(lines, i + 1)
  }

  /** The lines read from line `k` on, right-stripped, up to the first that is empty or not a CONECT record. */
  function StrippedFrom(lines: seq<string>, k: nat): seq<string>
    decreases |lines| - k
  {
    if k >= |lines| || RStrip(lines[k]) == [] || !Contains(RStrip(lines[k]), "CONECT") then []
    else [RStrip(lines[k])] + StrippedFrom(lines, k + 1)
  }

  /** The lines the CONECT loop handles. */
  function ConectLines(lines: seq<string>): seq<string>
    requires lines != []
  {
    ConectLinesAt(lines, ConectStart(lines))
  }

  /** The lines the CONECT loop handles when it starts on line `s`. */
  function ConectLinesAt(lines: seq<string>, s: nat): seq<string>
    requires s < |lines|
  {
    if Contains(lines[s], "CONECT") then [lines[s]] + StrippedFrom(lines, s + 1) else []
  }

  /** The atom number of a five-character field: its first word, when that is all digits. */
  function FieldNumber(field: string): Option<nat>
  {
    var word := FirstWord(field);
    if IsDigits(word) then Some(DigitsValue(word)) else None
  }

  /** The numbers of the first `count` fields of `body`. */
  function FieldNumbers(body: string, count: nat): seq<nat>
    requires 5 * count <= |body|
  {
    if count == 0 then []
    else
      var field := body[5 * (count - 1)..5 * count];
      FieldNumbers(body, count - 1) + (match FieldNumber(field) case Some(v) => [v] case None => [])
  }

  /** What follows `CONECT` on a line, right-stripped. */
  function ConectBody(line: string): string
  {
    Drop(RStrip(line), 6)
  }

  /** The atom numbers of a CONECT line: one per whole five-character field that holds one. */
  function LineNumbers(line: string): seq<nat>
  {
    var body := ConectBody(line);
    FieldNumbers(body, |body| / 5)
  }

  /** `atom_list` of a CONECT line. */
  method ParseConect(line: string) returns (atomList: seq<nat>)
    ensures atomList == LineNumbers(line)
  {
    var body := RStrip(line);
    body := Drop(body, 6);
    var loops := |body| / 5;
    atomList := [];
    for i := 0 to loops
      invariant atomList == FieldNumbers(body, i)
    {
      var word := FirstWord(body[5 * i..5 * (i + 1)]);
      FieldNumbersStep(body, i);
      if word != [] && IsDigits(word) {
        atomList := atomList + [DigitsValue(word)];
      }
    }
  }

  /** The fields up to `i + 1` are those up to `i`, then the number of field `i` when it holds one. */
  lemma FieldNumbersStep(body: string, i: nat)
    requires 5 * (i + 1) <= |body|
    ensures var word := FirstWord(body[5 * i..5 * (i + 1)]);
      FieldNumbers(body, i + 1) == FieldNumbers(body, i) + (if IsDigits(word) then [DigitsValue(word)] else [])
  {
  }

  datatype Stick = Stick(atom1: nat, atom2: nat)

  /** The sticks so far and the number of pairs rejected as already present. */
  datatype Bonds = Bonds(sticks: seq<Stick>, doubles: nat)

  /** Register one pair: a pair already present in the same orientation only counts as a double. */
  function AddPair(b: Bonds, s: Stick): (r: Bonds)
  {
    if s in b.sticks then b.(doubles := b.doubles + 1) else b.(sticks := b.sticks + [s])
  }

  /** Pair `atom1` with each partner in turn. */
  function AddPairs(b: Bonds, atom1: nat, partners: seq<nat>): Bonds
  {
    if partners == [] then b
    else AddPair(AddPairs(b, atom1, partners[..|partners| - 1]), Stick(atom1, partners[|partners| - 1]))
  }

  /** The bonds after one CONECT line; nothing where it holds no atom number (`atom_list[0]` raises). */
  function LineBonds(b: Bonds, line: string): Option<Bonds>
  {
    var ns := LineNumbers(line);
    if ns == [] then None else Some(AddPairs(b, ns[0], ns[1..]))
  }

  /** The bonds after the CONECT lines `ls`, starting from `b`; nothing once a line fails. */
  function BondsFrom(b: Bonds, ls: seq<string>): Option<Bonds>
    decreases |ls|
  {
    if ls == [] then Some(b)
    else match LineBonds(b, ls[0])
      case None => None
      case Some(b') => BondsFrom(b', ls[1..])
  }

  /** The sticks of the handled CONECT lines. */
  function BondsOf(ls: seq<string>): Option<Bonds>
  {
    BondsFrom(Bonds([], 0), ls)
  }

  /** The sticks read, `Number_of_sticks` and `sticks_double`. */
  datatype ConectSection = ConectSection(sticks: seq<Stick>, numberOfSticks: nat, sticksDouble: nat)

  /** The pairs of one CONECT line added to the sticks, with the search over the sticks so far. */
  method ConnectLine(sticks: seq<Stick>, doubles: nat, atomList: seq<nat>) returns (sticks': seq<Stick>, doubles': nat)
    requires atomList != []
    ensures Bonds(sticks', doubles') == AddPairs(Bonds(sticks, doubles), atomList[0], atomList[1..])
  {
    sticks', doubles' := sticks, doubles;
    var atom1 := atomList[0];
    var partners := atomList[1..];
    for p := 0 to |partners|
      invariant Bonds(sticks', doubles') == AddPairs(Bonds(sticks, doubles), atom1, partners[..p])
    {
      var atom2 := partners[p];
      var flagBar := false;
      var k := 0;
      while k < |sticks'|
        invariant 0 <= k <= |sticks'|
        invariant flagBar <==> Stick(atom1, atom2) in sticks'[..k]
        decreases |sticks'| - k, if flagBar then 0 else 1
      {
        if sticks'[k].atom1 == atom1 && sticks'[k].atom2 == atom2 {
          doubles' := doubles' + 1;
          flagBar := true;
          assert sticks'[..k + 1][k] == Stick(atom1, atom2);
          break;
        }
        k := k + 1;
      }
      if !flagBar {
        assert sticks'[..k] == sticks';
        sticks' := sticks' + [Stick(atom1, atom2)];
      }
      assert partners[..p + 1][..p] == partners[..p];
    }
    assert partners[..|partners|] == partners;
  }

  /** The line `readline` gives after line `k - 1`, right-stripped (empty at the end of the file). */
  function ReadStripped(lines: seq<string>, k: nat): string
  {
    if k < |lines| then RStrip(lines[k]) else []
  }

  /** The bonds the CONECT loop ends with when it holds `b` at the current line `line`, the next read being line `k`. */
  function SticksAfter(lines: seq<string>, b: Bonds, line: string, k: nat): Option<Bonds>
    decreases |lines| + 1 - k
  {
    if line == [] || !Contains(line, "CONECT") then Some(b)
    else match LineBonds(b, line)
      case None => None
      case Some(b') => if k >= |lines| then Some(b') else SticksAfter(lines, b', ReadStripped(lines, k), k + 1)
  }

  /** One turn of the CONECT loop: a line without an atom number fails. */
  lemma SticksFail(lines: seq<string>, b: Bonds, line: string, k: nat)
    requires line != [] && Contains(line, "CONECT") && LineNumbers(line) == []
    ensures SticksAfter(lines, b, line, k) == None
  {
  }

  /** One turn of the CONECT loop: a line with atom numbers adds its pairs and the loop goes on with the next line. */
  lemma SticksTurn(lines: seq<string>, b: Bonds, line: string, k: nat, ns: seq<nat>, b': Bonds)
    requires line != [] && Contains(line, "CONECT") && k <= |lines|
    requires ns == LineNumbers(line) && ns != [] && b' == AddPairs(b, ns[0], ns[1..])
    ensures SticksAfter(lines, b, line, k) == SticksAfter(lines, b', ReadStripped(lines, k), k + 1)
  {
  }

  /** The first loop of the CONECT part, over the lines up to the first CONECT record. */
  method FindConectStart(lines: seq<string>) returns (start: nat)
    requires lines != []
    ensures start == ConectStart(lines)
  {
    start := 0;
    while start < |lines| - 1 && !IsConectHead(lines[start])
      invariant 0 <= start <= |lines| - 1
      invariant ConectStartFrom(lines, start) == ConectStart(lines)
    {
      start := start + 1;
    }
  }

  /** The CONECT loop from the current line `first`, the next read being line `next`. */
  method ConectLoop(lines: seq<string>, first: string, next: nat) returns (r: Result<ConectSection, string>)
    requires next <= |lines|
    ensures r.Success? <==> SticksAfter(lines, Bonds([], 0), first, next).Some?
    ensures r.Success? ==> var b := SticksAfter(lines, Bonds([], 0), first, next).value;
      r.value == ConectSection(b.sticks, |b.sticks|, b.doubles)
  {
    ghost var goal := SticksAfter(lines, Bonds([], 0), first, next);
    var line: string, k: nat := first, next;
    var sticks: seq<Stick> := [];
    var numberOfSticks: nat := 0;
    var sticksDouble: nat := 0;
    while line != [] && Contains(line, "CONECT")
      invariant k <= |lines| + 1 && (k > |lines| ==> line == [])
      invariant SticksAfter(lines, Bonds(sticks, sticksDouble), line, k) == goal
      invariant numberOfSticks == |sticks|
      decreases |lines| + 1 - k
    {
      var atomList := ParseConect(line);
      if atomList == [] {
        SticksFail(lines, Bonds(sticks, sticksDouble), line, k);
        return Failure("CONECT line without atom number");
      }
      ghost var b := Bonds(sticks, sticksDouble);
      sticks, sticksDouble := ConnectLine(sticks, sticksDouble, atomList);
      SticksTurn(lines, b, line, k, atomList, Bonds(sticks, sticksDouble));
      numberOfSticks := |sticks|;
      line := ReadStripped(lines, k);
      k := k + 1;
    }
    assert goal == Some(Bonds(sticks, sticksDouble));
    return Success(ConectSection(sticks, numberOfSticks, sticksDouble));
  }

  /**
   * The CONECT part of `DEF_atom_pdb_main`: it fails where a handled line
   * holds no atom number, and otherwise gives the sticks, their number and
   * the number of doubles.
   */
  method ReadSticks(lines: seq<string>) returns (r: Result<ConectSection, string>)
    requires FileLines(lines) && lines != []
    ensures r.Success? <==> BondsOf(ConectLines(lines)).Some?
    ensures r.Success? ==> var b := BondsOf(ConectLines(lines)).value;
      r.value == ConectSection(b.sticks, |b.sticks|, b.doubles)
  {
    var start := FindConectStart(lines);
    r := ConectLoop(lines, lines[start], start + 1);
    SticksAfterIsPending(lines, Bonds([], 0), lines[start], start + 1);
    assert lines[start] != [];
    ConectLinesFromStart(lines, start);
  }

  lemma ConectLinesFromStart(lines: seq<string>, start: nat)
    requires lines != [] && start == ConectStart(lines) && lines[start] != []
    ensures ConectPending(lines, lines[start], start + 1) == ConectLines(lines)
  {
    PendingOfLine(lines, lines[start], start + 1);
    assert ConectLines(lines) == ConectLinesAt(lines, start);
  }

  /** From a non-empty line, the loop handles it and the lines after it exactly when it is a CONECT record. */
  lemma PendingOfLine(lines: seq<string>, line: string, k: nat)
    requires line != []
    ensures ConectPending(lines, line, k) == if Contains(line, "CONECT") then [line] + StrippedFrom(lines, k) else []
  {
  }

  /** The CONECT lines still to be handled when the current line is `line` and the next read is line `k`. */
  function ConectPending(lines: seq<string>, line: string, k: nat): seq<string>
  {
    if line == [] || !Contains(line, "CONECT") then [] else [line] + StrippedFrom(lines, k)
  }

  /** The loop ends with the bonds of the CONECT lines still to be handled. */
  lemma {:induction false} SticksAfterIsPending(lines: seq<string>, b: Bonds, line: string, k: nat)
    requires k <= |lines|
    ensures SticksAfter(lines, b, line, k) == BondsFrom(b, ConectPending(lines, line, k))
    decreases |lines| - k
  {
    if line != [] && Contains(line, "CONECT") {
      var pending := ConectPending(lines, line, k);
      assert pending[0] == line && pending[1..] == StrippedFrom(lines, k);
      match LineBonds(b, line)
      case None =>
      case Some(b') =>
        if k < |lines| {
          SticksAfterIsPending(lines, b', ReadStripped(lines, k), k + 1);
          assert ConectPending(lines, ReadStripped(lines, k), k + 1) == StrippedFrom(lines, k);
        }
    }
  }

  predicate DistinctSticks(ss: seq<Stick>)
  {
    forall i, j :: 0 <= i < j < |ss| ==> ss[i] != ss[j]
  }

  /** Registering one pair never stores the same oriented pair twice. */
  lemma AddPairKeepsDistinct(b: Bonds, s: Stick)
    requires DistinctSticks(b.sticks)
    ensures DistinctSticks(AddPair(b, s).sticks)
  {
  }

  /** Registering pairs never stores the same oriented pair twice. */
  lemma {:induction false} AddPairsKeepsDistinct(b: Bonds, atom1: nat, partners: seq<nat>)
    requires DistinctSticks(b.sticks)
    ensures DistinctSticks(AddPairs(b, atom1, partners).sticks)
  {
    if partners != [] {
      AddPairsKeepsDistinct(b, atom1, partners[..|partners| - 1]);
      AddPairKeepsDistinct(AddPairs(b, atom1, partners[..|partners| - 1]), Stick(atom1, partners[|partners| - 1]));
    }
  }

  /** The sticks of any run of CONECT lines are pairwise different, so `Number_of_sticks` counts different oriented pairs. */
  lemma {:induction false} BondsFromDistinct(b: Bonds, ls: seq<string>)
    requires DistinctSticks(b.sticks) && BondsFrom(b, ls).Some?
    ensures DistinctSticks(BondsFrom(b, ls).value.sticks)
    decreases |ls|
  {
    if ls != [] {
      var ns := LineNumbers(ls[0]);
      AddPairsKeepsDistinct(b, ns[0], ns[1..]);
      BondsFromDistinct(AddPairs(b, ns[0], ns[1..]), ls[1..]);
    }
  }

  /** Every pair offered is either stored or counted as a double. */
  lemma {:induction false} AddPairsCounts(b: Bonds, atom1: nat, partners: seq<nat>)
    ensures var r := AddPairs(b, atom1, partners);
      |r.sticks| + r.doubles == |b.sticks| + b.doubles + |partners|
  {
    if partners != [] {
      AddPairsCounts(b, atom1, partners[..|partners| - 1]);
    }
  }

  /** The earlier sticks stay in place, and the sticks stored are the earlier ones and the offered pairs. */
  lemma {:induction false} AddPairsContents(b: Bonds, atom1: nat, partners: seq<nat>)
    ensures var r := AddPairs(b, atom1, partners);
      |b.sticks| <= |r.sticks| && b.sticks == r.sticks[..|b.sticks|] &&
      (forall s :: s in r.sticks <==> s in b.sticks || (s.atom1 == atom1 && s.atom2 in partners))
  {
    if partners != [] {
      var init := partners[..|partners| - 1];
      AddPairsContents(b, atom1, init);
      var m := AddPairs(b, atom1, init);
      var r := AddPair(m, Stick(atom1, partners[|partners| - 1]));
      assert r.sticks[..|m.sticks|] == m.sticks;
      assert r.sticks[..|b.sticks|] == m.sticks[..|b.sticks|];
      assert forall x :: x in partners <==> x in init || x == partners[|partners| - 1];
    }
  }

  /** A pair in the reverse orientation of a stored stick is stored as a new stick. */
  lemma ReversedPairIsNew(a: nat, c: nat)
    requires a != c
    ensures AddPair(Bonds([Stick(a, c)], 0), Stick(c, a)) == Bonds([Stick(a, c), Stick(c, a)], 0)
    ensures AddPair(Bonds([Stick(a, c)], 0), Stick(a, c)) == Bonds([Stick(a, c)], 1)
  {
  }

  /** A field of five digits gives their number. */
  lemma FiveDigitFields()
    ensures FieldNumber("11111") == Some(11111) && FieldNumber("44444") == Some(44444)
  {
    FiveDigitField("11111", '1');
    FiveDigitField("44444", '4');
  }

  lemma FiveDigitField(field: string, d: char)
    requires '0' <= d <= '9' && field == [d, d, d, d, d]
    ensures FieldNumber(field) == Some(11111 * (d as nat - '0' as nat))
  {
    TakeDigits(field);
    var v := d as nat - '0' as nat;
    assert DigitsValue(field[..2]) == 11 * v by { assert field[..2][..1] == field[..1]; }
    assert DigitsValue(field[..3]) == 111 * v by { assert field[..3][..2] == field[..2]; }
    assert DigitsValue(field[..4]) == 1111 * v by { assert field[..4][..3] == field[..3]; }
  }

  /** Leading white space does not change the first word. */
  lemma {:induction false} SkipSpaces(s: string, n: nat)
    requires n <= |s| && forall k :: 0 <= k < n ==> IsSpace(s[k])
    ensures FirstWord(s) == FirstWord(s[n..])
  {
    if n > 0 {
      SkipSpaces(s[1..], n - 1);
      assert s[1..][n - 1..] == s[n..];
    }
  }

  /** A run of digits is its own first word. */
  lemma {:induction false} TakeDigits(s: string)
    requires IsDigits(s)
    ensures FirstWord(s) == s
  {
    TakeWordDigits(s);
  }

  lemma {:induction false} TakeWordDigits(s: string)
    requires forall k :: 0 <= k < |s| ==> '0' <= s[k] <= '9'
    ensures TakeWord(s) == s
  {
    if s != [] {
      TakeWordDigits(s[1..]);
    }
  }

  /** Leading spaces of a field are skipped. */
  lemma PaddedFields()
    ensures FieldNumber("  222") == Some(222) && FieldNumber("    1") == Some(1) && FieldNumber("    2") == Some(2)
  {
    PaddedThreeDigits("  222", '2');
    PaddedDigit("    1", '1');
    PaddedDigit("    2", '2');
  }

  lemma PaddedThreeDigits(field: string, d: char)
    requires '0' <= d <= '9' && field == [' ', ' ', d, d, d]
    ensures FieldNumber(field) == Some(111 * (d as nat - '0' as nat))
  {
    var w := field[2..];
    SkipSpaces(field, 2);
    TakeDigits(w);
    var v := d as nat - '0' as nat;
    assert DigitsValue(w[..2]) == 11 * v by { assert w[..2][..1] == w[..1]; }
  }

  lemma PaddedDigit(field: string, d: char)
    requires '0' <= d <= '9' && field == [' ', ' ', ' ', ' ', d]
    ensures FieldNumber(field) == Some(d as nat - '0' as nat)
  {
    var w := field[4..];
    SkipSpaces(field, 4);
    TakeDigits(w);
  }

  /** The fields are cut at fixed columns: `CONECT11111  22244444` pairs atom 11111 with atoms 222 and 44444. */
  lemma FixedColumns(line: string)
    requires line == "CONECT11111  22244444"
    ensures LineNumbers(line) == [11111, 222, 44444]
  {
    var body := ConectBody(line);
    assert RStrip(line) == line;
    assert body == "11111" + "  222" + "44444";
    assert |body| / 5 == 3;
    FiveDigitFields();
    PaddedFields();
    ThreeFields("11111", "  222", "44444", 11111, 222, 44444);
  }

  /** A body of three whole fields gives the numbers of the three fields, in order. */
  lemma ThreeFields(f1: string, f2: string, f3: string, a: nat, b: nat, c: nat)
    requires |f1| == 5 && |f2| == 5 && |f3| == 5
    requires FieldNumber(f1) == Some(a) && FieldNumber(f2) == Some(b) && FieldNumber(f3) == Some(c)
    ensures FieldNumbers(f1 + f2 + f3, 3) == [a, b, c]
  {
    var body := f1 + f2 + f3;
    assert body[0..5] == f1 && body[5..10] == f2 && body[10..15] == f3;
    assert FieldNumbers(body, 1) == [a];
    assert FieldNumbers(body, 2) == [a, b];
  }

  /** A tail shorter than a field is ignored: `CONECT    1    2 3` pairs atom 1 with atom 2 only. */
  lemma ShortTailIgnored(line: string)
    requires line == "CONECT    1    2 3"
    ensures LineNumbers(line) == [1, 2]
  {
    var body := ConectBody(line);
    assert RStrip(line) == line;
    assert body == "    1    2 3";
    assert |body| / 5 == 2;
    ShortTailBody(body);
  }

  lemma ShortTailBody(body: string)
    requires body == "    1    2 3"
    ensures FieldNumbers(body, 2) == [1, 2]
  {
    assert body[0..5] == "    1" && body[5..10] == "    2";
    PaddedFields();
    assert FieldNumbers(body, 1) == [1];
  }
}
