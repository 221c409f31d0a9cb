/** How a merged person is named from the display names in its cluster. */
module Naming {
  import opened Text
  import opened Wrappers
  import opened StoreModel

  function Strip(text: string): (r: string)
    ensures |r| <= |text|
    ensures r != "" ==> !IsSpace(r[0]) && !IsSpace(r[|r| - 1])
    ensures r == "" <==> IsBlank(text)
    decreases |text|
  {
    if text == "" then ""
    else if IsSpace(text[0]) then
      assert IsBlank(text) <==> IsBlank(text[1..]);
      Strip(text[1..])
    else if IsSpace(text[|text| - 1]) then
      assert !IsBlank(text[..|text| - 1]) by { assert text[..|text| - 1][0] == text[0]; }
      Strip(text[..|text| - 1])
    else text
  }

  predicate IsLetter(c: char) {
    'a' <= c <= 'z' || 'A' <= c <= 'Z'
  }

  predicate FitsName(text: string, i: nat)
    requires i < |text|
  {
    || IsLetter(text[i])
    || (IsSpace(text[i]) && 0 < i < |text| - 1)
    || (text[i] in {'\'', '-'} && 0 < i && !IsSpace(text[i - 1]))
  }

  /** Words of letters, apostrophes and hyphens that start with a letter, separated by white space. */
  predicate LooksNameLike(text: string) {
    text != "" && forall i :: 0 <= i < |text| ==> FitsName(text, i)
  }

  /** Stripping takes the white space off both ends. */
  lemma {:induction false} StripIs(before: string, core: string, behind: string)
    requires IsBlank(before) && IsBlank(behind)
    requires core != "" ==> !IsSpace(core[0]) && !IsSpace(core[|core| - 1])
    ensures Strip(before + core + behind) == core
    decreases |before| + |behind|
  {
    var text := before + core + behind;
    if core == "" {
    } else if before != "" {
      assert text[0] == before[0] && text[1..] == before[1..] + core + behind;
      StripIs(before[1..], core, behind);
    } else if behind != "" {
      var shorter := behind[..|behind| - 1];
      assert text[0] == core[0] && text[|text| - 1] == behind[|behind| - 1];
      assert text[..|text| - 1] == before + core + shorter;
      StripIs(before, core, shorter);
    } else {
      assert text == core;
    }
  }

  /** A maximal run of characters other than white space. */
  ghost predicate IsRunAt(text: string, i: nat, j: nat) {
    && i < j <= |text| && (forall k :: i <= k < j ==> !IsSpace(text[k]))
    && (i > 0 ==> IsSpace(text[i - 1])) && (j < |text| ==> IsSpace(text[j]))
  }

  ghost predicate IsNameWord(word: string) {
    && word != "" && ('a' <= word[0] <= 'z' || 'A' <= word[0] <= 'Z')
    && forall k :: 0 <= k < |word| ==> 'a' <= word[k] <= 'z' || 'A' <= word[k] <= 'Z' || word[k] in {'\'', '-'}
  }

  function RunStart(text: string, k: nat): (i: nat)
    requires k < |text| && !IsSpace(text[k])
    ensures i <= k && (i > 0 ==> IsSpace(text[i - 1])) && forall n :: i <= n <= k ==> !IsSpace(text[n])
  {
    if k == 0 || IsSpace(text[k - 1]) then k else RunStart(text, k - 1)
  }

  function RunEnd(text: string, k: nat): (j: nat)
    requires k < |text| && !IsSpace(text[k])
    ensures k < j <= |text| && (j < |text| ==> IsSpace(text[j])) && forall n :: k <= n < j ==> !IsSpace(text[n])
    decreases |text| - k
  {
    if k + 1 == |text| || IsSpace(text[k + 1]) then k + 1 else RunEnd(text, k + 1)
  }

  /** A stripped text looks like a name iff every run of other than white space in it is a name's word. */
  lemma NameLikeIff(text: string)
    requires text != "" && !IsSpace(text[0]) && !IsSpace(text[|text| - 1])
    ensures LooksNameLike(text) <==> forall i: nat, j: nat :: IsRunAt(text, i, j) ==> IsNameWord(text[i..j])
  {
    hide IsSpace;
    if LooksNameLike(text) {
      forall i: nat, j: nat | IsRunAt(text, i, j) ensures IsNameWord(text[i..j]) {
        assert FitsName(text, i);
        assert forall k :: 0 <= k < j - i ==> text[i..j][k] == text[i + k] && FitsName(text, i + k);
      }
    }
    if forall i: nat, j: nat :: IsRunAt(text, i, j) ==> IsNameWord(text[i..j]) {
      forall k | 0 <= k < |text| ensures FitsName(text, k) {
        if !IsSpace(text[k]) {
          var (i, j) := (RunStart(text, k), RunEnd(text, k));
          assert IsRunAt(text, i, j) && text[i..j][k - i] == text[k] && text[i..j][0] == text[i];
        }
      }
    }
  }

  /** The display names there are, stripped. */
  function Candidates(names: set<Option<string>>): set<string> {
    set d | d in names && d.Some? && Strip(d.value) != "" :: Strip(d.value)
  }

  function NameLike(names: set<Option<string>>): set<string> {
    set c | c in Candidates(names) && LooksNameLike(c)
  }

  ghost predicate IsLongest(pool: set<string>, text: string) {
    text in pool && forall other :: other in pool ==> |other| <= |text|
  }

  /** What may be chosen: row order and the order of a Python set decide between equals. */
  ghost predicate Selects(names: set<Option<string>>, chosen: Names) {
    var pool := NameLike(names);
    if Candidates(names) == {} then chosen == Names("", None)
    else if pool == {} then chosen.primary in Candidates(names) && chosen.preferred == None
    else
      && IsLongest(pool, chosen.primary)
      && (match chosen.preferred
          case None => pool == {chosen.primary}
          case Some(shorter) => IsLongest(pool - {chosen.primary}, shorter))
  }

  /** What surrounds a stripped text is blank. */
  lemma {:induction false} AroundStripped(text: string) returns (before: string, behind: string)
    ensures IsBlank(before) && IsBlank(behind) && text == before + Strip(text) + behind
    decreases |text|
  {
    hide IsSpace;
    before, behind := "", "";
    if text != "" && IsSpace(text[0]) {
      before, behind := AroundStripped(text[1..]);
      before := [text[0]] + before;
      assert text == [text[0]] + text[1..];
    } else if text != "" && IsSpace(text[|text| - 1]) {
      before, behind := AroundStripped(text[..|text| - 1]);
      behind := behind + [text[|text| - 1]];
      assert text == text[..|text| - 1] + [text[|text| - 1]];
    }
  }

  /** A display name with the white space around it. */
  ghost predicate IsGiven(names: set<Option<string>>, name: string) {
    exists before, behind :: IsBlank(before) && IsBlank(behind) && Some(before + name + behind) in names
  }

  /**
    What is chosen was given, but for white space around it. The primary name is empty only if there is no
    name that is not blank, and a preferred name looks like a name.
   */
  lemma ChosenNamesAreGiven(names: set<Option<string>>, chosen: Names)
    requires Selects(names, chosen)
    ensures chosen.primary == "" ==> forall d :: d in names && d.Some? ==> IsBlank(d.value)
    ensures chosen.primary != "" ==>
      IsGiven(names, chosen.primary) && !IsSpace(chosen.primary[0]) && !IsSpace(chosen.primary[|chosen.primary| - 1])
    ensures chosen.preferred.Some? ==>
      && IsGiven(names, chosen.preferred.value) && LooksNameLike(chosen.preferred.value)
      && LooksNameLike(chosen.primary) && |chosen.preferred.value| <= |chosen.primary|
  {
    forall c | c in Candidates(names) ensures IsGiven(names, c) && c != "" && !IsSpace(c[0]) && !IsSpace(c[|c| - 1]) {
      var d :| d in names && d.Some? && Strip(d.value) == c && c != "";
      var before, behind := AroundStripped(d.value);
      assert Some(before + c + behind) in names;
    }
    if d :| d in names && d.Some? && !IsBlank(d.value) {
      assert Strip(d.value) in Candidates(names);
    }
    hide LooksNameLike;
  }

  /** When the name-like names have different lengths, every row order gives the same two names. */
  lemma SelectionIsDetermined(names: set<Option<string>>, x: Names, y: Names)
    requires Selects(names, x) && Selects(names, y)
    requires NameLike(names) != {}
    requires forall u, v :: u in NameLike(names) && v in NameLike(names) && |u| == |v| ==> u == v
    ensures x == y
  {
    var pool := NameLike(names);
    assert x.primary == y.primary;
    match (x.preferred, y.preferred)
    case (Some(u), Some(v)) => assert u in pool - {x.primary} && v in pool - {x.primary};
    case _ =>
  }

  function Elements<T>(list: seq<T>): set<T> {
    set x | x in list
  }

  ghost predicate LongestFirst(list: seq<string>) {
    && (forall i, j :: 0 <= i < j < |list| ==> |list[i]| >= |list[j]|)
    && (forall i, j :: 0 <= i < j < |list| ==> list[i] != list[j])
  }

  /** One insertion of `sorted(set(name_like), key=len, reverse=True)`. */
  method InsertByLength(list: seq<string>, text: string) returns (r: seq<string>)
    requires LongestFirst(list)
    ensures LongestFirst(r)
    ensures Elements(r) == Elements(list) + {text}
  {
    if text in list {
      assert Elements(list) == Elements(list) + {text};
      return list;
    }
    var i := 0;
    while i < |list| && |list[i]| >= |text|
      invariant 0 <= i <= |list|
      invariant forall j :: 0 <= j < i ==> |list[j]| >= |text|
    {
      i := i + 1;
    }
    r := list[..i] + [text] + list[i..];
    InsertedInOrder(list, text, i);
    InsertedElements(list[..i], text, list[i..]);
    assert list == list[..i] + list[i..];
  }

  function Inserted(list: seq<string>, text: string, i: nat): (longer: seq<string>)
    requires i <= |list|
    ensures |longer| == |list| + 1
  {
    list[..i] + [text] + list[i..]
  }

  lemma InsertedAt(list: seq<string>, text: string, i: nat, j: nat)
    requires i <= |list| && j <= |list|
    ensures Inserted(list, text, i)[j] == if j < i then list[j] else if j == i then text else list[j - 1]
  {
  }

  lemma InsertedInOrder(list: seq<string>, text: string, i: nat)
    requires LongestFirst(list) && text !in list && i <= |list|
    requires forall j :: 0 <= j < i ==> |list[j]| >= |text|
    requires i < |list| ==> |list[i]| < |text|
    ensures LongestFirst(Inserted(list, text, i))
  {
    hide Inserted;
    assert forall j :: i <= j < |list| ==> |list[j]| < |text|;
    forall j, k | 0 <= j < k <= |list| ensures |Inserted(list, text, i)[j]| >= |Inserted(list, text, i)[k]| {
      InsertedAt(list, text, i, j);
      InsertedAt(list, text, i, k);
    }
    forall j, k | 0 <= j < k <= |list| ensures Inserted(list, text, i)[j] != Inserted(list, text, i)[k] {
      InsertedAt(list, text, i, j);
      InsertedAt(list, text, i, k);
    }
  }

  lemma InsertedElements(x: seq<string>, text: string, y: seq<string>)
    ensures Elements(x + [text] + y) == Elements(x + y) + {text}
  {
    assert forall c :: c in x + [text] + y <==> c in x || c == text || c in y;
  }

  /** The head and the second of a sorted pool are a selection from it. */
  lemma SortedSelects(names: set<Option<string>>, sorted: seq<string>)
    requires LongestFirst(sorted) && sorted != [] && Elements(sorted) == NameLike(names)
    ensures Selects(names, Names(sorted[0], if |sorted| > 1 then Some(sorted[1]) else None))
  {
    var pool := NameLike(names);
    assert sorted[0] in Elements(sorted);
    if |sorted| > 1 {
      assert sorted[1] in Elements(sorted);
      forall c | c in pool - {sorted[0]} ensures |c| <= |sorted[1]| {
        assert c in sorted;
      }
    } else {
      assert pool == {sorted[0]};
    }
  }

  lemma OneMoreName(names: set<Option<string>>, d: Option<string>)
    ensures Candidates(names + {d}) ==
      Candidates(names) + (if d.Some? && Strip(d.value) != "" then {Strip(d.value)} else {})
  {
    forall c | c in Candidates(names) ensures c in Candidates(names + {d}) {
      var e :| e in names && e.Some? && Strip(e.value) != "" && Strip(e.value) == c;
      assert e in names + {d};
    }
    assert d in names + {d};
  }

  method SelectNames(displayNames: seq<Option<string>>) returns (chosen: Names)
    ensures Selects(Elements(displayNames), chosen)
  {
    var candidates: seq<string> := [];
    var sorted: seq<string> := [];
    for n := 0 to |displayNames|
      invariant Elements(candidates) == Candidates(Elements(displayNames[..n]))
      invariant LongestFirst(sorted)
      invariant Elements(sorted) == NameLike(Elements(displayNames[..n]))
    {
      assert Elements(displayNames[..n + 1]) == Elements(displayNames[..n]) + {displayNames[n]};
      OneMoreName(Elements(displayNames[..n]), displayNames[n]);
      if displayNames[n].Some? && Strip(displayNames[n].value) != "" {
        var c := Strip(displayNames[n].value);
        assert Elements(candidates + [c]) == Elements(candidates) + {c};
        candidates := candidates + [c];
        assert NameLike(Elements(displayNames[..n + 1])) ==
          NameLike(Elements(displayNames[..n])) + (if LooksNameLike(c) then {c} else {});
        if LooksNameLike(c) {
          sorted := InsertByLength(sorted, c);
        }
      }
    }
    assert displayNames[..|displayNames|] == displayNames;
    if candidates == [] {
      return Names("", None);
    }
    assert candidates[0] in Elements(candidates);
    if sorted == [] {
      chosen := Names(candidates[0], None);
    } else {
      chosen := Names(sorted[0], if |sorted| > 1 then Some(sorted[1]) else None);
      SortedSelects(Elements(displayNames), sorted);
    }
  }
}
