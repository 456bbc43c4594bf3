/** Selection of the folders to clean up by their names (main.py, lines 82-90):
    a folder is kept when its lower-cased name contains the lower-cased type
    token and at least one lower-cased process token. */
module FolderSelection {
  import Seqs

  /** The product-type tokens (`TYPES`). */
  const TypeTokens: seq<string> := ["SGT5-4000F"]

  /** The process tokens (`CAST_MACHINED`); the surrounding spaces are part
      of each token. */
  const ProcessTokens: seq<string> := [" CAST ", " MACHINED "]

  /** `str.lower()` on one character, for the ASCII letters. */
  function LowerChar(c: char): char
  {
    if 'A' <= c <= 'Z' then (c as int + 32) as char else c
  }

  /** `str.lower()`, character by character. */
  function Lower(s: string): string
  {
    if s == [] then [] else [LowerChar(s[0])] + Lower(s[1..])
  }

  /** Python's `needle in hay` on strings: is `needle` a prefix of `hay` or
      of one of its suffixes? */
  function SubstringIn(needle: string, hay: string): bool
    decreases |hay|
  {
    needle <= hay || (hay != [] && SubstringIn(needle, hay[1..]))
  }

  /** Reference definition of a substring occurrence: `needle` sits in `hay`
      at position `i`. */
  ghost predicate OccursAt(needle: string, hay: string, i: int)
  {
    0 <= i && i + |needle| <= |hay| && hay[i..i + |needle|] == needle
  }

  ghost predicate Occurs(needle: string, hay: string)
  {
    exists i :: OccursAt(needle, hay, i)
  }

  /** `any(t.lower() in lowered for t in tokens)`, token by token, where
      `lowered` is the lower-cased folder name. */
  predicate AnyTokenIn(tokens: seq<string>, lowered: string)
  {
    tokens != [] && (SubstringIn(Lower(tokens[0]), lowered) || AnyTokenIn(tokens[1..], lowered))
  }

  /** The condition of the folder comprehension. */
  predicate IsSelected(name: string)
  {
    var lowered := Lower(name);
    AnyTokenIn(TypeTokens, lowered) && AnyTokenIn(ProcessTokens, lowered)
  }

  /** The folder comprehension: the enumerated folder names that are kept. */
  function SelectFolders(names: seq<string>): (r: seq<string>)
    ensures |r| <= |names|
    ensures forall k :: 0 <= k < |r| ==> IsSelected(r[k])
  {
    Seqs.Filter(names, IsSelected)
  }

  /** The search of `SubstringIn` finds exactly the occurrences of the
      reference definition. */
  lemma {:induction false} SubstringInIff(needle: string, hay: string)
    ensures SubstringIn(needle, hay) <==> Occurs(needle, hay)
    decreases |hay|
  {
    assert OccursAt(needle, hay, 0) <==> needle <= hay;
    if hay == [] {
      if Occurs(needle, hay) {
        var i :| OccursAt(needle, hay, i);
        assert i == 0;
      }
    } else {
      SubstringInIff(needle, hay[1..]);
      if Occurs(needle, hay[1..]) {
        var i :| OccursAt(needle, hay[1..], i);
        OccursAtTail(needle, hay, i + 1);
      }
      if Occurs(needle, hay) && !(needle <= hay) {
        var i :| OccursAt(needle, hay, i);
        assert i != 0;
        OccursAtTail(needle, hay, i);
      }
    }
  }

  /** An occurrence past the first character is an occurrence in the tail. */
  lemma OccursAtTail(needle: string, hay: string, i: int)
    requires hay != [] && 1 <= i
    ensures OccursAt(needle, hay, i) <==> OccursAt(needle, hay[1..], i - 1)
  {
    if i + |needle| <= |hay| {
      assert hay[1..][i - 1..i - 1 + |needle|] == hay[i..i + |needle|];
    }
  }

  lemma {:induction false} LowerLength(s: string)
    ensures |Lower(s)| == |s|
  {
    if s != [] {
      LowerLength(s[1..]);
    }
  }

  /** Lower-casing works position by position. */
  lemma {:induction false} LowerAt(s: string, i: int)
    requires 0 <= i < |s|
    ensures |Lower(s)| == |s| && Lower(s)[i] == LowerChar(s[i])
  {
    LowerLength(s);
    if i > 0 {
      LowerAt(s[1..], i - 1);
    }
  }

  /** Lower-casing a concatenation lower-cases each part. */
  lemma {:induction false} LowerAppend(a: string, b: string)
    ensures Lower(a + b) == Lower(a) + Lower(b)
  {
    if a == [] {
      assert a + b == b;
    } else {
      assert (a + b)[1..] == a[1..] + b;
      LowerAppend(a[1..], b);
    }
  }

  /** Lower-casing a single character. */
  lemma LowerSingle(c: char)
    ensures Lower([c]) == [LowerChar(c)]
  {
    assert [c][1..] == [];
  }

  /** The first half of the type token, lower-cased. */
  lemma LowerTypeTokenFirstHalf()
    ensures Lower("SGT5-") == "sgt5-"
  {
    LowerSingle('-');
    LowerSingle('5');
    LowerSingle('G');
    LowerSingle('S');
    LowerSingle('T');
    LowerAppend(['S'] + ['G'] + ['T'] + ['5'], ['-']);
    LowerAppend(['S'] + ['G'] + ['T'], ['5']);
    LowerAppend(['S'] + ['G'], ['T']);
    LowerAppend(['S'], ['G']);
    assert "SGT5-" == ['S'] + ['G'] + ['T'] + ['5'] + ['-'];
    assert "sgt5-" == ['s'] + ['g'] + ['t'] + ['5'] + ['-'];
  }

  /** The second half of the type token, lower-cased. */
  lemma LowerTypeTokenSecondHalf()
    ensures Lower("4000F") == "4000f"
  {
    LowerSingle('0');
    LowerSingle('4');
    LowerSingle('F');
    LowerAppend(['4'] + ['0'] + ['0'] + ['0'], ['F']);
    LowerAppend(['4'] + ['0'] + ['0'], ['0']);
    LowerAppend(['4'] + ['0'], ['0']);
    LowerAppend(['4'], ['0']);
    assert "4000F" == ['4'] + ['0'] + ['0'] + ['0'] + ['F'];
    assert "4000f" == ['4'] + ['0'] + ['0'] + ['0'] + ['f'];
  }

  /** The type token, lower-cased. */
  lemma LowerTypeToken()
    ensures Lower("SGT5-4000F") == "sgt5-4000f"
  {
    LowerTypeTokenFirstHalf();
    LowerTypeTokenSecondHalf();
    LowerAppend("SGT5-", "4000F");
    assert "SGT5-" + "4000F" == "SGT5-4000F";
    assert "sgt5-" + "4000f" == "sgt5-4000f";
  }

  /** The first process token, lower-cased. */
  lemma LowerCastToken()
    ensures Lower(" CAST ") == " cast "
  {
    LowerSingle(' ');
    LowerSingle('A');
    LowerSingle('C');
    LowerSingle('S');
    LowerSingle('T');
    LowerAppend([' '] + ['C'] + ['A'] + ['S'] + ['T'], [' ']);
    LowerAppend([' '] + ['C'] + ['A'] + ['S'], ['T']);
    LowerAppend([' '] + ['C'] + ['A'], ['S']);
    LowerAppend([' '] + ['C'], ['A']);
    LowerAppend([' '], ['C']);
    assert " CAST " == [' '] + ['C'] + ['A'] + ['S'] + ['T'] + [' '];
    assert " cast " == [' '] + ['c'] + ['a'] + ['s'] + ['t'] + [' '];
  }

  /** The first half of the second process token, lower-cased. */
  lemma LowerMachinedTokenFirstHalf()
    ensures Lower(" MACH") == " mach"
  {
    LowerSingle(' ');
    LowerSingle('A');
    LowerSingle('C');
    LowerSingle('H');
    LowerSingle('M');
    LowerAppend([' '] + ['M'] + ['A'] + ['C'], ['H']);
    LowerAppend([' '] + ['M'] + ['A'], ['C']);
    LowerAppend([' '] + ['M'], ['A']);
    LowerAppend([' '], ['M']);
    assert " MACH" == [' '] + ['M'] + ['A'] + ['C'] + ['H'];
    assert " mach" == [' '] + ['m'] + ['a'] + ['c'] + ['h'];
  }

  /** The second half of the second process token, lower-cased. */
  lemma LowerMachinedTokenSecondHalf()
    ensures Lower("INED ") == "ined "
  {
    LowerSingle(' ');
    LowerSingle('D');
    LowerSingle('E');
    LowerSingle('I');
    LowerSingle('N');
    LowerAppend(['I'] + ['N'] + ['E'] + ['D'], [' ']);
    LowerAppend(['I'] + ['N'] + ['E'], ['D']);
    LowerAppend(['I'] + ['N'], ['E']);
    LowerAppend(['I'], ['N']);
    assert "INED " == ['I'] + ['N'] + ['E'] + ['D'] + [' '];
    assert "ined " == ['i'] + ['n'] + ['e'] + ['d'] + [' '];
  }

  /** The second process token, lower-cased. */
  lemma LowerMachinedToken()
    ensures Lower(" MACHINED ") == " machined "
  {
    LowerMachinedTokenFirstHalf();
    LowerMachinedTokenSecondHalf();
    LowerAppend(" MACH", "INED ");
    assert " MACH" + "INED " == " MACHINED ";
    assert " mach" + "ined " == " machined ";
  }

  /** `any(...)` over a list of one token. */
  lemma AnyOfOneToken(a: string, lowered: string)
    ensures AnyTokenIn([a], lowered) <==> SubstringIn(Lower(a), lowered)
  {
    assert [a][1..] == [];
  }

  /** `any(...)` over a list of two tokens. */
  lemma AnyOfTwoTokens(a: string, b: string, lowered: string)
    ensures AnyTokenIn([a, b], lowered) <==> SubstringIn(Lower(a), lowered) || SubstringIn(Lower(b), lowered)
  {
    assert [a, b][1..] == [b];
    AnyOfOneToken(b, lowered);
  }

  /** The type condition, with the token lower-cased. */
  lemma TypeTokenLowered(lowered: string)
    ensures AnyTokenIn(TypeTokens, lowered) <==> SubstringIn("sgt5-4000f", lowered)
  {
    AnyOfOneToken("SGT5-4000F", lowered);
    LowerTypeToken();
  }

  /** The process condition, with the tokens lower-cased. */
  lemma ProcessTokensLowered(lowered: string)
    ensures AnyTokenIn(ProcessTokens, lowered) <==>
              SubstringIn(" cast ", lowered) || SubstringIn(" machined ", lowered)
  {
    AnyOfTwoTokens(" CAST ", " MACHINED ", lowered);
    LowerCastToken();
    LowerMachinedToken();
  }

  /** Two names whose letters agree up to case lower-case to the same string. */
  lemma {:induction false} LowerSameUpToCase(a: string, b: string)
    requires |a| == |b|
    requires forall i :: 0 <= i < |a| ==> LowerChar(a[i]) == LowerChar(b[i])
    ensures Lower(a) == Lower(b)
  {
    if a != [] {
      assert LowerChar(a[0]) == LowerChar(b[0]);
      LowerSameUpToCase(a[1..], b[1..]);
    }
  }

  /** Selection exactness: a name is selected iff its lower-cased form
      contains "sgt5-4000f" and contains " cast " or " machined ". */
  lemma SelectedIff(name: string)
    ensures IsSelected(name) <==>
              && Occurs("sgt5-4000f", Lower(name))
              && (Occurs(" cast ", Lower(name)) || Occurs(" machined ", Lower(name)))
  {
    TypeTokenLowered(Lower(name));
    ProcessTokensLowered(Lower(name));
    SubstringInIff("sgt5-4000f", Lower(name));
    SubstringInIff(" cast ", Lower(name));
    SubstringInIff(" machined ", Lower(name));
  }

  /** Selection ignores letter case: changing the case of any letters of a
      name never changes whether it is selected. */
  lemma SelectionIgnoresCase(a: string, b: string)
    requires |a| == |b|
    requires forall i :: 0 <= i < |a| ==> LowerChar(a[i]) == LowerChar(b[i])
    ensures IsSelected(a) <==> IsSelected(b)
  {
    LowerSameUpToCase(a, b);
  }

  /** The process tokens carry their spaces on both sides: a name with at
      most one space in it is never selected, whatever else it contains (so
      neither "SGT5-4000F_CAST_A" nor a name ending in "CAST" qualifies through
      that word). */
  lemma AtMostOneSpaceNotSelected(name: string)
    requires forall i, j :: 0 <= i < j < |name| && name[i] == ' ' ==> name[j] != ' '
    ensures !IsSelected(name)
  {
    SelectedIff(name);
    if Occurs(" cast ", Lower(name)) {
      var i, j := SpacedTokenNeedsTwoSpaces(name, " cast ");
      assert false;
    }
    if Occurs(" machined ", Lower(name)) {
      var i, j := SpacedTokenNeedsTwoSpaces(name, " machined ");
      assert false;
    }
  }

  /** A token that starts and ends with a space occurs in the lower-cased
      form of a name only where the name itself has two spaces, at `i` and
      at `j`. */
  lemma SpacedTokenNeedsTwoSpaces(name: string, token: string) returns (i: int, j: int)
    requires |token| >= 2 && token[0] == ' ' && token[|token| - 1] == ' '
    requires Occurs(token, Lower(name))
    ensures 0 <= i < j < |name| && name[i] == ' ' && name[j] == ' '
  {
    LowerLength(name);
    var lowered := Lower(name);
    i :| OccursAt(token, lowered, i);
    j := i + |token| - 1;
    assert lowered[i] == ' ' by {
      assert lowered[i..i + |token|][0] == lowered[i];
    }
    assert lowered[j] == ' ' by {
      assert lowered[i..i + |token|][|token| - 1] == lowered[j];
    }
    LowerAt(name, i);
    LowerAt(name, j);
    LowerCharSpace(name[i]);
    LowerCharSpace(name[j]);
  }

  /** Only a space lower-cases to a space. */
  lemma LowerCharSpace(c: char)
    ensures LowerChar(c) == ' ' <==> c == ' '
  {
  }

  /** A token that ends with a space cannot end inside a space-free tail:
      if it occurs in the lower-cased form of `p + s`, it already occurs in
      the lower-cased form of `p`. */
  lemma TrailingSpaceTokenInPrefix(p: string, s: string, token: string)
    requires |token| >= 1 && token[|token| - 1] == ' '
    requires forall k :: 0 <= k < |s| ==> s[k] != ' '
    requires Occurs(token, Lower(p + s))
    ensures Occurs(token, Lower(p))
  {
    LowerAppend(p, s);
    LoweredHasNoSpace(s);
    OccursBeforeSpaceFree(Lower(p), Lower(s), token);
  }

  /** Lower-casing a space-free string keeps it space-free. */
  lemma LoweredHasNoSpace(s: string)
    requires forall k :: 0 <= k < |s| ==> s[k] != ' '
    ensures forall k :: 0 <= k < |Lower(s)| ==> Lower(s)[k] != ' '
  {
    LowerLength(s);
    forall k | 0 <= k < |Lower(s)|
      ensures Lower(s)[k] != ' '
    {
      LowerAt(s, k);
      LowerCharSpace(s[k]);
    }
  }

  /** An occurrence of a token ending with a space, in `a + b` with `b`
      space-free, lies wholly inside `a`. */
  lemma OccursBeforeSpaceFree(a: string, b: string, token: string)
    requires |token| >= 1 && token[|token| - 1] == ' '
    requires forall k :: 0 <= k < |b| ==> b[k] != ' '
    requires Occurs(token, a + b)
    ensures Occurs(token, a)
  {
    var i :| OccursAt(token, a + b, i);
    var j := i + |token| - 1;
    assert (a + b)[j] == ' ' by {
      assert (a + b)[i..i + |token|][|token| - 1] == (a + b)[j];
    }
    assert j < |a| by {
      if j >= |a| {
        assert false;
      }
    }
    assert (a + b)[i..i + |token|] == a[i..i + |token|];
    assert OccursAt(token, a, i);
  }

  /** Appending a space-free tail to a name never supplies a process token:
      if the longer name is selected, the name without the tail already
      contains ` cast ` or ` machined ` once lower-cased. */
  lemma SpaceFreeTailAddsNoProcessToken(p: string, s: string)
    requires forall k :: 0 <= k < |s| ==> s[k] != ' '
    ensures IsSelected(p + s) ==> Occurs(" cast ", Lower(p)) || Occurs(" machined ", Lower(p))
  {
    SelectedIff(p + s);
    if Occurs(" cast ", Lower(p + s)) {
      TrailingSpaceTokenInPrefix(p, s, " cast ");
    }
    if Occurs(" machined ", Lower(p + s)) {
      TrailingSpaceTokenInPrefix(p, s, " machined ");
    }
  }

  /** A name ending in `CAST` (in any case, any number of spaces before it)
      is selected only if the part before that `CAST` already holds a process
      token: the trailing word never counts as ` CAST `. So
      `SGT5-4000F X CAST` is not selected. */
  lemma EndingInCastNeedsEarlierToken(p: string)
    ensures IsSelected(p + "CAST") ==> Occurs(" cast ", Lower(p)) || Occurs(" machined ", Lower(p))
  {
    assert "CAST"[0] == 'C' && "CAST"[1] == 'A' && "CAST"[2] == 'S' && "CAST"[3] == 'T';
    SpaceFreeTailAddsNoProcessToken(p, "CAST");
  }

  /** A token placed between two strings occurs in the result. */
  lemma OccursBetween(p: string, needle: string, q: string)
    ensures Occurs(needle, p + needle + q)
  {
    assert (p + needle + q)[|p|..|p| + |needle|] == needle;
    assert OccursAt(needle, p + needle + q, |p|);
  }

  lemma LowerFiveParts(p: string, t: string, q: string, c: string, r: string)
    ensures Lower(p + t + q + c + r) == Lower(p) + Lower(t) + Lower(q) + Lower(c) + Lower(r)
  {
    LowerAppend(p + t + q + c, r);
    LowerAppend(p + t + q, c);
    LowerAppend(p + t, q);
    LowerAppend(p, t);
  }

  lemma OccursInFiveParts(p: string, t: string, q: string, c: string, r: string)
    ensures Occurs(t, p + t + q + c + r) && Occurs(c, p + t + q + c + r)
  {
    OccursBetween(p, t, q + c + r);
    assert p + t + (q + c + r) == p + t + q + c + r;
    OccursBetween(p + t + q, c, r);
  }

  /** A name made of anything, the type token, anything, a process token and
      anything is selected (for instance "SGT5-4000F CAST A"). */
  lemma TokensPresentSelected(p: string, q: string, r: string, process: string)
    requires process == " CAST " || process == " MACHINED "
    ensures IsSelected(p + "SGT5-4000F" + q + process + r)
  {
    var name := p + "SGT5-4000F" + q + process + r;
    LowerTypeToken();
    LowerCastToken();
    LowerMachinedToken();
    LowerFiveParts(p, "SGT5-4000F", q, process, r);
    OccursInFiveParts(Lower(p), Lower("SGT5-4000F"), Lower(q), Lower(process), Lower(r));
    SelectedIff(name);
  }

  /** The folders kept are exactly the selected ones among the enumerated
      folders, in enumeration order: `idx` gives, in strictly increasing
      order, the position of every selected name and of no other. */
  lemma SelectFoldersIsOrderedSubsequence(names: seq<string>) returns (idx: seq<nat>)
    ensures |idx| == |SelectFolders(names)|
    ensures forall k :: 0 <= k < |idx| ==> idx[k] < |names| && SelectFolders(names)[k] == names[idx[k]]
    ensures forall k, l :: 0 <= k < l < |idx| ==> idx[k] < idx[l]
    ensures forall i :: 0 <= i < |names| && IsSelected(names[i]) ==> i in idx
  {
    idx := Seqs.FilterIndices(names, IsSelected);
  }

  /** A folder name is kept iff it is enumerated and selected. */
  lemma SelectFoldersMembership(names: seq<string>, name: string)
    ensures name in SelectFolders(names) <==> name in names && IsSelected(name)
  {
    Seqs.FilterMembership(names, IsSelected, name);
  }
}
