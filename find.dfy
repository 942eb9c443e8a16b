/** The quiz finder: a category filter, a name search that overrides it, and
    a latch recording whether anything matched since the category last
    changed. */
module Find {
  import opened Wrappers
  import opened Ascii

  const CategoryAll: string := "all"
  const CategoryUploads: string := "shared"
  /** What an empty category is shown as. */
  const Uncategorised: string := "Uncategorised"

  /** Whether a quiz called `name`, in category `quizCategory`, published
      online or not, is shown under the current `search` and `current`
      category: a search term matches names case-insensitively by prefix and
      overrides the category; otherwise uploads match the shared category,
      and the category matches itself or "all". */
  function MatchRule(search: Option<string>, current: string, name: string, quizCategory: string, online: bool): (b: bool)
    ensures search.Some? ==> (b <==> StartsWith(Lower(name), Lower(search.value)))
    ensures search.None? ==> (b <==> (online && current == CategoryUploads) || current == CategoryAll || current == Lower(quizCategory))
    ensures search == Some("") ==> b
    ensures search.None? && current == CategoryAll ==> b
  {
    if search.Some? then StartsWith(Lower(name), Lower(search.value))
    else if online && current == CategoryUploads then true
    else current == CategoryAll || current == Lower(quizCategory)
  }

  class Finder {
    var category: string
    var search: Option<string>
    var anyMatched: bool

    /** The selected category is always stored lower-case. */
    ghost predicate Valid()
      reads this
    {
      Lower(category) == category
    }

    /** The component's initial data. */
    constructor ()
      ensures category == CategoryAll && search == None && !anyMatched
      ensures Valid()
    {
      category := CategoryAll;
      search := None;
      anyMatched := false;
    }

    /** Selects a category (an empty one means uncategorised) and resets
        the latch. */
    method SetCategory(now: string)
      modifies this`category, this`anyMatched
      ensures category == Lower(if now == "" then Uncategorised else now)
      ensures now == "" ==> category == "uncategorised"
      ensures |category| == |if now == "" then Uncategorised else now|
      ensures !anyMatched && search == old(search)
      ensures Valid()
    {
      var n := now;
      if n == "" {
        n := Uncategorised;
      }
      anyMatched := false;
      category := Lower(n);
      LowerIdempotent(n);
      if now == "" {
        UncategorisedLower();
      }
    }

    /** The selected category, lower-cased. */
    function GetCategory(): (r: string)
      reads this
      ensures |r| == |category|
      ensures forall i :: 0 <= i < |r| ==> r[i] == LowerChar(category[i])
      ensures Lower(r) == r
      ensures Valid() ==> r == category
    {
      LowerIdempotent(category);
      Lower(category)
    }

    /** Passes `n` through and latches it into anyMatched. */
    method UpdateNothing(n: bool) returns (r: bool)
      modifies this`anyMatched
      ensures r == n
      ensures anyMatched == (old(anyMatched) || n)
    {
      if !anyMatched {
        anyMatched := n;
      }
      return n;
    }

    /** Whether a quiz is shown; records the answer in the latch. */
    method Match(name: string, quizCategory: string, online: bool) returns (r: bool)
      modifies this`anyMatched
      ensures r == MatchRule(search, category, name, quizCategory, online)
      ensures anyMatched == (old(anyMatched) || r)
    {
      if search.Some? {
        if StartsWith(Lower(name), Lower(search.value)) {
          r := UpdateNothing(true);
          return;
        }
        r := UpdateNothing(false);
        return;
      }
      if online && category == CategoryUploads {
        r := UpdateNothing(true);
        return;
      }
      r := UpdateNothing(category == CategoryAll || category == Lower(quizCategory));
    }

    /** Searches by name across all categories; the latch is kept. */
    method Search(term: string)
      modifies this`category, this`search
      ensures category == CategoryAll && search == Some(term)
      ensures anyMatched == old(anyMatched)
      ensures Valid()
    {
      category := CategoryAll;
      search := Some(term);
    }
  }

  /** The label of an empty category, lower-cased. */
  lemma UncategorisedLower()
    ensures Lower(Uncategorised) == "uncategorised"
  {
  }

  /** With a search term, the category and the online flag play no part:
      the answer is the case-insensitive prefix test. */
  lemma SearchOverridesCategory(term: string, current1: string, current2: string, name: string,
                                quizCategory1: string, quizCategory2: string, online1: bool, online2: bool)
    ensures MatchRule(Some(term), current1, name, quizCategory1, online1)
         == MatchRule(Some(term), current2, name, quizCategory2, online2)
         == StartsWith(Lower(name), Lower(term))
  {
  }

  /** Matching ignores the case of the quiz's name and category. */
  lemma MatchIgnoresCase(search: Option<string>, current: string, name: string, quizCategory: string, online: bool)
    ensures MatchRule(search, current, Lower(name), Lower(quizCategory), online)
         == MatchRule(search, current, name, quizCategory, online)
  {
    LowerIdempotent(name);
    LowerIdempotent(quizCategory);
  }

  /** A name that starts with the search term as typed is always shown. */
  lemma ExactPrefixShown(term: string, current: string, name: string, quizCategory: string, online: bool)
    requires StartsWith(name, term)
    ensures MatchRule(Some(term), current, name, quizCategory, online)
  {
    StartsWithLower(name, term);
  }

  /** An empty search term shows everything. */
  lemma EmptySearchShowsAll(current: string, name: string, quizCategory: string, online: bool)
    ensures MatchRule(Some(""), current, name, quizCategory, online)
  {
    EmptyPrefix(Lower(name));
  }
}
