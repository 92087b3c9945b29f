/** Folder names of an export: numbered apart where two threads would collide on a file system that ignores case. */
module ExportNames {
  import opened Decimals

  /** Any folding of case, applied to whole names. */
  type Folding = string -> string

  function Numbered(base: string, i: nat): string {
    base + " (" + Decimal(i) + ")"
  }

  /** All that is asked of the folding: a number added in parentheses neither changes nor is changed. */
  ghost predicate KeepsNumbers(fold: Folding) {
    forall base: string, i: nat :: fold(Numbered(base, i)) == Numbered(fold(base), i)
  }

  lemma NumberedInjective(base: string, i: nat, j: nat)
    requires Numbered(base, i) == Numbered(base, j)
    ensures i == j
  {
    var p := base + " (";
    assert Decimal(i) == Numbered(base, i)[|p|..|Numbered(base, i)| - 1];
    assert Decimal(j) == Numbered(base, j)[|p|..|Numbered(base, j)| - 1];
    DecimalInjective(i, j);
  }

  /** The base itself if it is free, otherwise the base with the least free number from two on. */
  ghost predicate LeastFree(fold: Folding, base: string, used: set<string>, name: string) {
    if fold(base) !in used then name == base
    else exists i :: IsLeastNumber(fold(base), used, i) && name == Numbered(base, i)
  }

  ghost predicate IsLeastNumber(lower: string, used: set<string>, i: nat) {
    && i >= 2 && Numbered(lower, i) !in used
    && forall j: nat | 2 <= j < i :: Numbered(lower, j) in used
  }

  /** The search ends because the candidates tried are pairwise distinct members of a finite set. */
  method Disambiguate(fold: Folding, base: string, used: set<string>) returns (name: string)
    ensures LeastFree(fold, base, used, name)
    ensures KeepsNumbers(fold) ==> fold(name) !in used
  {
    var lower := fold(base);
    if lower !in used {
      return base;
    }
    var i := 2;
    ghost var tried: set<string> := {};
    while Numbered(lower, i) in used
      invariant i >= 2
      invariant forall j: nat | 2 <= j < i :: Numbered(lower, j) in used
      invariant tried <= used && |tried| == i - 2
      invariant forall t | t in tried :: exists j: nat :: 2 <= j < i && t == Numbered(lower, j)
      decreases |used| + 2 - i
    {
      if Numbered(lower, i) in tried {
        var j: nat :| 2 <= j < i && Numbered(lower, i) == Numbered(lower, j);
        NumberedInjective(lower, i, j);
      }
      SubsetSize(tried + {Numbered(lower, i)}, used);
      tried := tried + {Numbered(lower, i)};
      i := i + 1;
    }
    assert IsLeastNumber(lower, used, i);
    name := Numbered(base, i);
  }

  lemma SubsetSize<T>(a: set<T>, b: set<T>)
    requires a <= b
    ensures |a| <= |b|
  {
    assert |b - a| == |b| - |a|;
  }

  function FoldedSet(fold: Folding, names: seq<string>): set<string> {
    if names == [] then {} else FoldedSet(fold, names[..|names| - 1]) + {fold(names[|names| - 1])}
  }

  /** Every name is the least free one given the names chosen before it. */
  ghost predicate Chosen(fold: Folding, bases: seq<string>, names: seq<string>) {
    && |names| <= |bases|
    && forall k | 0 <= k < |names| :: LeastFree(fold, bases[k], FoldedSet(fold, names[..k]), names[k])
  }

  ghost predicate DistinctFolded(fold: Folding, names: seq<string>) {
    forall i, j | 0 <= i < j < |names| :: fold(names[i]) != fold(names[j])
  }

  /** The loop over the threads of an export. */
  method ExportFolderNames(fold: Folding, bases: seq<string>) returns (names: seq<string>)
    ensures |names| == |bases| && Chosen(fold, bases, names)
    ensures KeepsNumbers(fold) ==> DistinctFolded(fold, names)
  {
    names := [];
    var usedNames: set<string> := {};
    while |names| < |bases|
      invariant usedNames == FoldedSet(fold, names)
      invariant Chosen(fold, bases, names)
      invariant KeepsNumbers(fold) ==> DistinctFolded(fold, names)
      decreases |bases| - |names|
    {
      var filename := Disambiguate(fold, bases[|names|], usedNames);
      OneMoreChosen(fold, bases, names, filename);
      OneMoreDistinct(fold, names, filename);
      usedNames := usedNames + {fold(filename)};
      names := names + [filename];
    }
  }

  lemma OneMoreChosen(fold: Folding, bases: seq<string>, names: seq<string>, name: string)
    requires Chosen(fold, bases, names) && |names| < |bases|
    requires LeastFree(fold, bases[|names|], FoldedSet(fold, names), name)
    ensures Chosen(fold, bases, names + [name])
  {
    var more := names + [name];
    forall k | 0 <= k < |more| ensures LeastFree(fold, bases[k], FoldedSet(fold, more[..k]), more[k])
    {
      assert more[..k] == names[..k];
      if k == |names| {
        assert names[..k] == names;
      }
    }
  }

  lemma OneMoreDistinct(fold: Folding, names: seq<string>, name: string)
    ensures FoldedSet(fold, names + [name]) == FoldedSet(fold, names) + {fold(name)}
    ensures DistinctFolded(fold, names) && fold(name) !in FoldedSet(fold, names) ==> DistinctFolded(fold, names + [name])
  {
    assert (names + [name])[..|names|] == names;
    forall i | 0 <= i < |names| ensures fold(names[i]) in FoldedSet(fold, names)
    {
      InFoldedSet(fold, names, i);
    }
  }

  lemma {:induction false} InFoldedSet(fold: Folding, names: seq<string>, i: nat)
    requires i < |names|
    ensures fold(names[i]) in FoldedSet(fold, names)
  {
    if i < |names| - 1 {
      InFoldedSet(fold, names[..|names| - 1], i);
    }
  }

  /** The choice is a function of the names taken: no other name satisfies the rule. */
  lemma LeastFreeUnique(fold: Folding, base: string, used: set<string>, a: string, b: string)
    requires LeastFree(fold, base, used, a) && LeastFree(fold, base, used, b)
    ensures a == b
  {
    if fold(base) in used {
      var i :| IsLeastNumber(fold(base), used, i) && a == Numbered(base, i);
      var j :| IsLeastNumber(fold(base), used, j) && b == Numbered(base, j);
    }
  }

  // ----- one such folding: the letters of ASCII -----

  function Lower(c: char): char {
    if 'A' <= c <= 'Z' then (c as int + 32) as char else c
  }

  function ToLower(s: string): (r: string)
    ensures |r| == |s|
  {
    seq(|s|, i requires 0 <= i < |s| => Lower(s[i]))
  }

  /** Letters differ from their small form in nothing but case; nothing else is folded. */
  lemma ToLowerFolds(s: string, i: nat)
    requires i < |s|
    ensures 'A' as int <= s[i] as int && s[i] as int <= 'Z' as int ==> ToLower(s)[i] as int - 'a' as int == s[i] as int - 'A' as int
    ensures s[i] as int < 'A' as int || 'Z' as int < s[i] as int ==> ToLower(s)[i] == s[i]
  {
  }

  lemma AsciiKeepsNumbers()
    ensures KeepsNumbers(ToLower)
  {
    forall base: string, i: nat ensures ToLower(Numbered(base, i)) == Numbered(ToLower(base), i)
    {
    }
  }
}
