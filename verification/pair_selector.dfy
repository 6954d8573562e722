/** The pair drop-down: a case-insensitive substring search over the pair
    names, and what choosing a pair does to the drop-down's state. */
module PairSelector {
  import opened Text
  import opened Sequences

  /** The test "contains the search text, ignoring case". */
  function MatchesSearch(search: string): string -> bool {
    (p: string) => Contains(ToLower(p), ToLower(search))
  }

  /** The pairs listed for a search text, in their original order. */
  function FilterPairs(pairs: seq<string>, search: string): (r: seq<string>)
    ensures SubsequenceOf(r, pairs)
    ensures forall k :: 0 <= k < |r| ==> r[k] in pairs && Contains(ToLower(r[k]), ToLower(search))
    ensures forall k :: 0 <= k < |pairs| && Contains(ToLower(pairs[k]), ToLower(search)) ==> pairs[k] in r
    ensures forall p :: multiset(r)[p] ==
              if Contains(ToLower(p), ToLower(search)) then multiset(pairs)[p] else 0
  {
    FilterCounts(pairs, MatchesSearch(search));
    Filter(pairs, MatchesSearch(search))
  }

  /** An empty search lists every pair. */
  lemma EmptySearchKeepsAll(pairs: seq<string>)
    ensures FilterPairs(pairs, "") == pairs
  {
    forall p | p in pairs ensures MatchesSearch("")(p) {
      assert Contains(ToLower(p), ToLower(""));
    }
    FilterKeepsAll(pairs, MatchesSearch(""));
  }

  /** Two searches that differ only in letter case list the same pairs. */
  lemma SearchIgnoresCase(pairs: seq<string>, s: string, t: string)
    requires ToLower(s) == ToLower(t)
    ensures FilterPairs(pairs, s) == FilterPairs(pairs, t)
  {
    FilterAgreeing(pairs, MatchesSearch(s), MatchesSearch(t));
  }

  /** In particular, typing the search in capitals changes nothing. */
  lemma UpperCaseSearch(pairs: seq<string>, s: string)
    ensures FilterPairs(pairs, ToUpper(s)) == FilterPairs(pairs, s)
  {
    LowerOfUpper(s);
    SearchIgnoresCase(pairs, ToUpper(s), s);
  }

  /** Whether the list is open, and the search text typed so far. */
  datatype SelectorState = SelectorState(isOpen: bool, search: string)

  /** Choosing a pair: the pair is reported to the page, the list closes and the search is cleared. */
  function HandleSelect(st: SelectorState, pair: string): (r: (SelectorState, string))
    ensures r.1 == pair
    ensures !r.0.isOpen && r.0.search == ""
  {
    (SelectorState(false, ""), pair)
  }

  /** After a choice, the next opening of the list shows every pair again. */
  lemma SelectResetsFilter(pairs: seq<string>, st: SelectorState, pair: string)
    ensures FilterPairs(pairs, HandleSelect(st, pair).0.search) == pairs
  {
    EmptySearchKeepsAll(pairs);
  }
}
