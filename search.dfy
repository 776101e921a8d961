/**
 * The global search: the searchable screens are registered once, and every query keeps, in
 * their original order, the screens whose title or one of whose keywords contains the query,
 * ignoring case.
 */
module Search {
  import opened Text

  datatype Searchable = Searchable(title: string, route: string, keywords: seq<string>)

  /** Two characters are equal ignoring case (ASCII letters only). */
  predicate SameIgnoringCase(a: char, b: char)
  {
    ToLowerChar(a) == ToLowerChar(b)
  }

  /** `query` occurs in `text` at offset `k`, ignoring case. */
  predicate OccursAt(text: string, query: string, k: nat)
  {
    k + |query| <= |text| && forall j :: 0 <= j < |query| ==> SameIgnoringCase(text[k + j], query[j])
  }

  /** `text.contains(query, ignoreCase = true)`. */
  predicate ContainsIgnoringCase(text: string, query: string)
  {
    exists k: nat :: k <= |text| && OccursAt(text, query, k)
  }

  /** `query` occurs verbatim in `text` at offset `k`. */
  predicate IsInfixAt(text: string, query: string, k: nat)
  {
    k + |query| <= |text| && text[k..k + |query|] == query
  }

  /** Ignoring case is the same as comparing the lower-cased texts. */
  lemma OccursAtIffLower(text: string, query: string, k: nat)
    ensures OccursAt(text, query, k) <==> IsInfixAt(Lower(text), Lower(query), k)
  {
    if OccursAt(text, query, k) {
      var lt, lq := Lower(text), Lower(query);
      assert forall j :: 0 <= j < |query| ==> lt[k..k + |query|][j] == lq[j];
    }
    if IsInfixAt(Lower(text), Lower(query), k) {
      var lt, lq := Lower(text), Lower(query);
      forall j | 0 <= j < |query|
        ensures SameIgnoringCase(text[k + j], query[j])
      {
        assert lt[k..k + |query|][j] == lq[j];
      }
    }
  }

  lemma ContainsIffLower(text: string, query: string)
    ensures ContainsIgnoringCase(text, query) <==> exists k: nat :: IsInfixAt(Lower(text), Lower(query), k)
  {
    if ContainsIgnoringCase(text, query) {
      var k: nat :| k <= |text| && OccursAt(text, query, k);
      OccursAtIffLower(text, query, k);
    }
    if exists k: nat :: IsInfixAt(Lower(text), Lower(query), k) {
      var k: nat :| IsInfixAt(Lower(text), Lower(query), k);
      OccursAtIffLower(text, query, k);
    }
  }

  /** A screen matches when its title or one of its keywords contains the query. */
  predicate Matches(item: Searchable, query: string)
  {
    ContainsIgnoringCase(item.title, query)
    || exists i :: 0 <= i < |item.keywords| && ContainsIgnoringCase(item.keywords[i], query)
  }

  /** `filter`: the matching screens, in order. */
  function Filter(items: seq<Searchable>, query: string): (r: seq<Searchable>)
    ensures |r| <= |items|
    ensures forall x :: x in r ==> x in items && Matches(x, query)
  {
    if items == [] then []
    else if Matches(items[0], query) then [items[0]] + Filter(items[1..], query)
    else Filter(items[1..], query)
  }

  /** Every matching screen is kept. */
  lemma {:induction false} FilterComplete(items: seq<Searchable>, query: string, x: Searchable)
    requires x in items && Matches(x, query)
    ensures x in Filter(items, query)
    decreases |items|
  {
    if items[0] != x {
      FilterComplete(items[1..], query, x);
    }
  }

  /** Filtering distributes over concatenation, so the original order is kept. */
  lemma {:induction false} FilterAppend(a: seq<Searchable>, b: seq<Searchable>, query: string)
    ensures Filter(a + b, query) == Filter(a, query) + Filter(b, query)
    decreases |a|
  {
    if a == [] {
      assert a + b == b;
    } else {
      assert (a + b)[1..] == a[1..] + b;
      FilterAppend(a[1..], b, query);
    }
  }

  /** An empty query is contained in every text, so without the blank rule all screens would match. */
  lemma EmptyQueryMatches(text: string)
    ensures ContainsIgnoringCase(text, "")
  {
    assert OccursAt(text, "", 0);
  }

  /** The results shown for a query: none for a blank query, otherwise the filtered screens. */
  function Results(items: seq<Searchable>, query: string): (r: seq<Searchable>)
    ensures IsBlank(query) ==> r == []
    ensures !IsBlank(query) ==> forall x :: x in items ==> (x in r <==> Matches(x, query))
  {
    if IsBlank(query) then []
    else
      assert forall x :: x in items && Matches(x, query) ==> x in Filter(items, query) by {
        forall x | x in items && Matches(x, query)
          ensures x in Filter(items, query)
        {
          FilterComplete(items, query, x);
        }
      }
      Filter(items, query)
  }

  class SearchViewModel {
    var query: string
    var results: seq<Searchable>
    var allSearchableItems: seq<Searchable>

    constructor()
      ensures query == "" && results == [] && allSearchableItems == []
    {
      query := "";
      results := [];
      allSearchableItems := [];
    }

    /** `setSearchableItems`: the list is replaced; the shown query and results stay as they are. */
    method SetSearchableItems(items: seq<Searchable>)
      modifies this
      ensures allSearchableItems == items
      ensures query == old(query) && results == old(results)
    {
      allSearchableItems := items;
    }

    /** `onQueryChange`: the query is stored verbatim and the results recomputed. */
    method OnQueryChange(q: string)
      modifies this
      ensures query == q && allSearchableItems == old(allSearchableItems)
      ensures results == Results(allSearchableItems, q)
    {
      query := q;
      results := Results(allSearchableItems, q);
    }
  }

  /** The calculator screen is found by "CALC" through its title, and by "Standard" through a keyword. */
  lemma CalculatorExample()
    ensures Matches(Searchable("Calculatrice", "calculator", ["calculator", "standard"]), "CALC")
    ensures Matches(Searchable("Calculatrice", "calculator", ["calculator", "standard"]), "Standard")
  {
    assert OccursAt("Calculatrice", "CALC", 0);
    var kws := ["calculator", "standard"];
    assert OccursAt(kws[1], "Standard", 0);
  }
}
