/** The checkbox toggle the student form (`handleClassToggle`) and the join page
    (`handleSubjectChange`) share: an item that is on the list is taken off (every
    occurrence), one that is not is appended. */
module ListToggle {
  import opened Common

  /** `c => c !== item`. */
  function Other(item: string): string -> bool {
    (c: string) => c != item
  }

  function Toggle(s: seq<string>, item: string): (r: seq<string>)
    ensures item in r <==> item !in s
    ensures forall c :: c != item ==> (c in r <==> c in s)
    ensures item !in s ==> |r| == |s| + 1 && r[|s|] == item
  {
    if item in s then
      Filter(s, Other(item))
    else s + [item]
  }

  /** Filtering twice by the same condition changes nothing the second time. */
  lemma FilterTwice(s: seq<string>, p: string -> bool)
    ensures Filter(Filter(s, p), p) == Filter(s, p)
  {
    FilterAll(Filter(s, p), p);
  }

  /** The other items keep their relative order: leaving out the toggled item, the
      list is the same before and after. */
  lemma ToggleKeepsOthersInOrder(s: seq<string>, item: string)
    ensures Filter(Toggle(s, item), Other(item)) == Filter(s, Other(item))
  {
    if item in s {
      FilterTwice(s, Other(item));
    } else {
      FilterAppend(s, [item], Other(item));
      assert [item][1..] == [];
    }
  }

  /** Toggling an absent item twice gives back the list. */
  lemma ToggleTwiceRestores(s: seq<string>, item: string)
    requires item !in s
    ensures Toggle(Toggle(s, item), item) == s
  {
    ToggleKeepsOthersInOrder(s, item);
    FilterAll(s, Other(item));
  }

  /** A list without repeats stays without repeats. */
  lemma ToggleKeepsNoRepeats(s: seq<string>, item: string)
    requires NoRepeats(s)
    ensures NoRepeats(Toggle(s, item))
  {
    if item !in s {
      assert multiset(s + [item]) == multiset(s) + multiset{item};
    }
  }
}
