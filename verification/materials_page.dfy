/** src/pages/Materials.tsx: the listing page. Its effect recomputes the
    shown list from the fetched list and the filter state; its vote handler
    updates both lists. */
module MaterialsPage {
  import opened Types
  import opened Outcomes
  import Text
  import Seqs
  import StableSort
  import ListVotes
  import MaterialCard
  import MaterialFilters

  type FilterState = MaterialFilters.FilterState

  /** The `switch (filters.sort)` cases; any other value is `Unsorted`. */
  datatype SortMode = Newest | Oldest | Popular | Unsorted

  function ParseSort(sort: string): (r: SortMode)
    ensures r == Newest <==> sort == "newest"
    ensures r == Oldest <==> sort == "oldest"
    ensures r == Popular <==> sort == "popular"
  {
    if sort == "newest" then Newest
    else if sort == "oldest" then Oldest
    else if sort == "popular" then Popular
    else Unsorted
  }

  /** The comparator passed to `result.sort` (timestamps as integers).
      `Unsorted` has none; it compares everything equal. */
  function Comparator(mode: SortMode, a: Material, b: Material): int {
    match mode
    case Newest => b.createdAt - a.createdAt
    case Oldest => a.createdAt - b.createdAt
    case Popular => b.upvotes - a.upvotes
    case Unsorted => 0
  }

  /** The key each comparator orders by, ascending. */
  function SortKey(mode: SortMode): Material -> int {
    match mode
    case Newest => (m: Material) => -m.createdAt
    case Oldest => (m: Material) => m.createdAt
    case Popular => (m: Material) => -m.upvotes
    case Unsorted => (m: Material) => 0
  }

  /** Every comparator is a difference of keys, so sorting with it is the
      stable sort by that key. */
  lemma ComparatorIsKeyDifference(mode: SortMode, a: Material, b: Material)
    ensures Comparator(mode, a, b) == SortKey(mode)(a) - SortKey(mode)(b)
    ensures Comparator(mode, a, b) > 0 <==> SortKey(mode)(a) > SortKey(mode)(b)
  {
  }

  /** The search test: the lower-cased title or description contains the
      lower-cased term. */
  predicate SearchHit(m: Material, search: string) {
    var term := Text.Lower(search);
    Text.Contains(Text.Lower(m.title), term) || Text.Contains(Text.Lower(m.description), term)
  }

  /** A term occurring verbatim in the title or description is found by
      the case-insensitive search. */
  lemma VerbatimHitFound(m: Material, search: string)
    requires Text.Contains(m.title, search) || Text.Contains(m.description, search)
    ensures SearchHit(m, search)
  {
    if Text.Contains(m.title, search) {
      Text.ContainsLower(m.title, search);
    } else {
      Text.ContainsLower(m.description, search);
    }
  }

  /** One filter step each; an empty filter string skips the step. */
  function BySearch(s: seq<Material>, search: string): seq<Material> {
    if search == "" then s else Seqs.Filter((m: Material) => SearchHit(m, search), s)
  }

  function ByCategory(s: seq<Material>, category: string): seq<Material> {
    if category == "" then s else Seqs.Filter((m: Material) => CategoryName(m.category) == category, s)
  }

  function ByYear(s: seq<Material>, year: string): seq<Material> {
    if year == "" then s else Seqs.Filter((m: Material) => YearName(m.year) == year, s)
  }

  /** The filter steps in the effect's order. */
  function Filtered(s: seq<Material>, f: FilterState): seq<Material> {
    ByYear(ByCategory(BySearch(s, f.search), f.category), f.year)
  }

  /** The effect's result: the filtered list, sorted unless the sort value
      is unknown. */
  function Listing(s: seq<Material>, f: FilterState): seq<Material> {
    var mode := ParseSort(f.sort);
    if mode == Unsorted then Filtered(s, f) else StableSort.Sort(Filtered(s, f), SortKey(mode))
  }

  /** Each test passes when its filter string is empty. */
  predicate SearchOk(m: Material, search: string) { search == "" || SearchHit(m, search) }
  predicate CategoryOk(m: Material, category: string) { category == "" || CategoryName(m.category) == category }
  predicate YearOk(m: Material, year: string) { year == "" || YearName(m.year) == year }

  /** A material passes all the active filters. */
  predicate Matches(m: Material, f: FilterState) {
    SearchOk(m, f.search) && CategoryOk(m, f.category) && YearOk(m, f.year)
  }

  lemma BySearchIsFilter(s: seq<Material>, search: string)
    ensures BySearch(s, search) == Seqs.Filter((m: Material) => SearchOk(m, search), s)
  {
    if search == "" {
      Seqs.FilterAllPass((m: Material) => SearchOk(m, search), s);
    } else {
      Seqs.FilterSamePredicate((m: Material) => SearchHit(m, search), (m: Material) => SearchOk(m, search), s);
    }
  }

  lemma ByCategoryIsFilter(s: seq<Material>, category: string)
    ensures ByCategory(s, category) == Seqs.Filter((m: Material) => CategoryOk(m, category), s)
  {
    if category == "" {
      Seqs.FilterAllPass((m: Material) => CategoryOk(m, category), s);
    } else {
      Seqs.FilterSamePredicate((m: Material) => CategoryName(m.category) == category,
                               (m: Material) => CategoryOk(m, category), s);
    }
  }

  lemma ByYearIsFilter(s: seq<Material>, year: string)
    ensures ByYear(s, year) == Seqs.Filter((m: Material) => YearOk(m, year), s)
  {
    if year == "" {
      Seqs.FilterAllPass((m: Material) => YearOk(m, year), s);
    } else {
      Seqs.FilterSamePredicate((m: Material) => YearName(m.year) == year, (m: Material) => YearOk(m, year), s);
    }
  }

  /** The three successive filters are one filter on their conjunction. */
  lemma FilteredIsConjunction(s: seq<Material>, f: FilterState)
    ensures Filtered(s, f) == Seqs.Filter((m: Material) => Matches(m, f), s)
  {
    var ps := (m: Material) => SearchOk(m, f.search);
    var pc := (m: Material) => CategoryOk(m, f.category);
    var py := (m: Material) => YearOk(m, f.year);
    var psc := (m: Material) => SearchOk(m, f.search) && CategoryOk(m, f.category);
    BySearchIsFilter(s, f.search);
    var afterSearch := BySearch(s, f.search);
    ByCategoryIsFilter(afterSearch, f.category);
    Seqs.FilterThenFilter(ps, pc, psc, s);
    var afterCategory := ByCategory(afterSearch, f.category);
    ByYearIsFilter(afterCategory, f.year);
    Seqs.FilterThenFilter(psc, py, (m: Material) => Matches(m, f), s);
  }

  /** The filtered list holds exactly the fetched materials that pass every
      active filter, each as often as fetched, in fetched order. */
  lemma FilteredSpec(s: seq<Material>, f: FilterState)
    ensures forall m :: m in Filtered(s, f) <==> m in s && Matches(m, f)
    ensures forall m :: multiset(Filtered(s, f))[m] == if Matches(m, f) then multiset(s)[m] else 0
    ensures Seqs.IsSubseq(Filtered(s, f), s)
  {
    FilteredIsConjunction(s, f);
    Seqs.FilterKeepsOrder((m: Material) => Matches(m, f), s);
  }

  /** Empty search, category and year strings select everything. */
  lemma EmptyFiltersKeepAll(s: seq<Material>, sort: string)
    ensures Filtered(s, MaterialFilters.FilterState("", "", "", sort)) == s
  {
  }

  /** The sort menu's values are exactly the three sorting modes. */
  lemma SortOptionsAreModes()
    ensures ParseSort(MaterialFilters.SortOptions[0].value) == Newest
    ensures ParseSort(MaterialFilters.SortOptions[1].value) == Oldest
    ensures ParseSort(MaterialFilters.SortOptions[2].value) == Popular
    ensures ParseSort(MaterialFilters.Initial.sort) == Newest
  {
  }

  /** The listing is a permutation of the filtered list: it holds exactly
      the fetched materials that pass the filters. */
  lemma ListingSelects(s: seq<Material>, f: FilterState)
    ensures multiset(Listing(s, f)) == multiset(Filtered(s, f))
    ensures forall m :: m in Listing(s, f) <==> m in s && Matches(m, f)
  {
    FilteredSpec(s, f);
    var mode := ParseSort(f.sort);
    if mode != Unsorted {
      StableSort.SortCorrect(Filtered(s, f), SortKey(mode));
    }
    forall m ensures m in Listing(s, f) <==> m in Filtered(s, f) {
      assert m in Listing(s, f) <==> m in multiset(Listing(s, f));
    }
  }

  /** 'newest' gives non-increasing creation times, 'oldest' non-decreasing
      ones, 'popular' non-increasing up-votes; any other value keeps the
      filtered order. */
  lemma ListingOrder(s: seq<Material>, f: FilterState)
    ensures var r := Listing(s, f);
            && (f.sort == "newest" ==> forall i, j :: 0 <= i < j < |r| ==> r[i].createdAt >= r[j].createdAt)
            && (f.sort == "oldest" ==> forall i, j :: 0 <= i < j < |r| ==> r[i].createdAt <= r[j].createdAt)
            && (f.sort == "popular" ==> forall i, j :: 0 <= i < j < |r| ==> r[i].upvotes >= r[j].upvotes)
            && (ParseSort(f.sort) == Unsorted ==> r == Filtered(s, f))
  {
    var mode := ParseSort(f.sort);
    if mode != Unsorted {
      var key := SortKey(mode);
      StableSort.SortCorrect(Filtered(s, f), key);
      var r := Listing(s, f);
      assert forall i, j :: 0 <= i < j < |r| ==> key(r[i]) <= key(r[j]);
    }
  }

  /** Materials that tie under the chosen sort keep their filtered order. */
  lemma ListingStable(s: seq<Material>, f: FilterState, k: int)
    requires ParseSort(f.sort) != Unsorted
    ensures var key := SortKey(ParseSort(f.sort));
            StableSort.Class(Listing(s, f), key, k) == StableSort.Class(Filtered(s, f), key, k)
  {
    StableSort.SortCorrect(Filtered(s, f), SortKey(ParseSort(f.sort)));
  }

  /** The filter effect: while the fetched list is empty the shown list is
      left alone; otherwise the copy is filtered step by step and, for a
      known sort value, sorted in place. */
  method RecomputeShown(materials: seq<Material>, filters: FilterState, shown: seq<Material>)
    returns (r: seq<Material>)
    ensures materials == [] ==> r == shown
    ensures materials != [] ==> r == Listing(materials, filters)
  {
    if |materials| == 0 {
      return shown;
    }
    var result := materials;
    if filters.search != "" {
      result := Seqs.Filter((m: Material) => SearchHit(m, filters.search), result);
    }
    if filters.category != "" {
      result := Seqs.Filter((m: Material) => CategoryName(m.category) == filters.category, result);
    }
    if filters.year != "" {
      result := Seqs.Filter((m: Material) => YearName(m.year) == filters.year, result);
    }
    assert result == Filtered(materials, filters);
    var mode := ParseSort(filters.sort);
    if mode != Unsorted {
      var copy := new Material[|result|](k requires 0 <= k < |result| => result[k]);
      assert copy[..] == result;
      SortInPlace(copy, mode);
      result := copy[..];
    }
    r := result;
  }

  /** `handleVote`: the reported count and the literal 'user-voted' go into
      the matching entries of both the fetched and the shown list. */
  function HandleVote(materials: seq<Material>, shown: seq<Material>, materialId: string, newVoteCount: int)
    : (r: (seq<Material>, seq<Material>))
    ensures ListVotes.VoteRecorded(materials, r.0, materialId, newVoteCount, "user-voted")
    ensures ListVotes.VoteRecorded(shown, r.1, materialId, newVoteCount, "user-voted")
  {
    (ListVotes.ApplyListVote(materials, materialId, newVoteCount, "user-voted"),
     ListVotes.ApplyListVote(shown, materialId, newVoteCount, "user-voted"))
  }

  /** As written, a confirmed vote leaves the voter's id out of `voted`, so
      the card's already-voted guard lets the same user vote on the same
      material again. */
  lemma MarkerAllowsRevote(materials: seq<Material>, shown: seq<Material>, i: int, user: User,
                           first: VoteType, second: VoteType)
    requires 0 <= i < |shown|
    requires user.id != "user-voted" && user.id !in shown[i].voted
    ensures var m := shown[i];
            var (attempt, reported) := MaterialCard.HandleVote(true, Some(user), m, first, true);
            && attempt == Done
            && var after := HandleVote(materials, shown, m.id, reported.value).1;
               MaterialCard.HandleVote(true, Some(user), after[i], second, true).0 == Done
  {
  }

  /** Corrected `handleVote`: the signed-in user's id (or '' without a user),
      as the other list pages record it. */
  function HandleVoteForUser(materials: seq<Material>, shown: seq<Material>, materialId: string,
                             newVoteCount: int, user: Option<User>)
    : (r: (seq<Material>, seq<Material>))
    ensures ListVotes.VoteRecorded(materials, r.0, materialId, newVoteCount, VoterId(user))
    ensures ListVotes.VoteRecorded(shown, r.1, materialId, newVoteCount, VoterId(user))
  {
    (ListVotes.ApplyListVote(materials, materialId, newVoteCount, VoterId(user)),
     ListVotes.ApplyListVote(shown, materialId, newVoteCount, VoterId(user)))
  }

  /** With the corrected update a second vote by the same user on the same
      material is refused, in both lists. */
  lemma RecordedVoterBlocksRevote(materials: seq<Material>, shown: seq<Material>, i: int, j: int,
                                  user: User, first: VoteType, second: VoteType)
    requires 0 <= i < |shown| && 0 <= j < |materials| && materials[j].id == shown[i].id
    requires MaterialCard.HandleVote(true, Some(user), shown[i], first, true).0 == Done
    ensures var m := shown[i];
            var reported := MaterialCard.HandleVote(true, Some(user), m, first, true).1;
            var (all, after) := HandleVoteForUser(materials, shown, m.id, reported.value, Some(user));
            && MaterialCard.HandleVote(true, Some(user), after[i], second, true).0 == Refused(AlreadyVoted)
            && MaterialCard.HandleVote(true, Some(user), all[j], second, true).0 == Refused(AlreadyVoted)
  {
  }

  /** `result.sort(comparator)` on the copied array: insertion sort that
      shifts larger elements right, which keeps ties in order. */
  method SortInPlace(a: array<Material>, mode: SortMode)
    modifies a
    ensures a[..] == StableSort.Sort(old(a[..]), SortKey(mode))
  {
    ghost var input := a[..];
    var i := 0;
    while i < a.Length
      invariant 0 <= i <= a.Length
      invariant a[..i] == StableSort.Sort(input[..i], SortKey(mode))
      invariant a[i..] == input[i..]
    {
      assert input[..i + 1][..i] == input[..i];
      assert a[i] == input[i];
      InsertLast(a, i, mode);
      assert a[i + 1..] == input[i + 1..];
      i := i + 1;
    }
    assert input[..a.Length] == input;
  }

  /** One pass of the insertion sort: `a[i]` moves left past the elements
      the comparator puts after it, and they shift one place right. */
  method InsertLast(a: array<Material>, i: int, mode: SortMode)
    requires 0 <= i < a.Length
    modifies a
    ensures a[..i + 1] == StableSort.Insert(old(a[i]), old(a[..i]), SortKey(mode))
    ensures a[i + 1..] == old(a[i + 1..])
  {
    ghost var sorted := a[..i];
    ghost var key := SortKey(mode);
    var x := a[i];
    var j := i;
    while j > 0 && Comparator(mode, a[j - 1], x) > 0
      invariant 0 <= j <= i
      invariant a[..j] == sorted[..j]
      invariant a[j + 1..i + 1] == sorted[j..]
      invariant a[i + 1..] == old(a[i + 1..])
      invariant StableSort.Insert(x, sorted, key) == StableSort.Insert(x, sorted[..j], key) + sorted[j..]
    {
      ComparatorIsKeyDifference(mode, a[j - 1], x);
      InsertPassesLarger(x, sorted, j, key);
      ghost var before := a[..];
      a[j] := a[j - 1];
      ShiftRight(before, sorted, i, j);
      j := j - 1;
    }
    if j > 0 {
      ComparatorIsKeyDifference(mode, a[j - 1], x);
    }
    ghost var before := a[..];
    a[j] := x;
    PlaceAt(before, sorted, i, j, x);
  }

  /** Inserting past an element of larger key moves that element to the
      unchanged suffix. */
  lemma {:induction false} InsertPassesLarger<T>(x: T, sorted: seq<T>, j: int, key: T -> int)
    requires 0 < j <= |sorted| && key(sorted[j - 1]) > key(x)
    requires StableSort.Insert(x, sorted, key) == StableSort.Insert(x, sorted[..j], key) + sorted[j..]
    ensures StableSort.Insert(x, sorted, key) == StableSort.Insert(x, sorted[..j - 1], key) + sorted[j - 1..]
  {
    assert sorted[..j][..j - 1] == sorted[..j - 1];
    assert sorted[j - 1..] == [sorted[j - 1]] + sorted[j..];
  }

  /** The array contents after one right shift at `j`. */
  lemma ShiftRight<T>(before: seq<T>, sorted: seq<T>, i: int, j: int)
    requires 0 < j <= i < |before| && |sorted| == i
    requires before[..j] == sorted[..j] && before[j + 1..i + 1] == sorted[j..]
    ensures var after := before[j := before[j - 1]];
            after[..j - 1] == sorted[..j - 1] && after[j..i + 1] == sorted[j - 1..]
            && after[i + 1..] == before[i + 1..]
  {
  }

  /** The array contents once `x` is placed at `j`. */
  lemma PlaceAt<T>(before: seq<T>, sorted: seq<T>, i: int, j: int, x: T)
    requires 0 <= j <= i < |before| && |sorted| == i
    requires before[..j] == sorted[..j] && before[j + 1..i + 1] == sorted[j..]
    ensures var after := before[j := x];
            after[..i + 1] == sorted[..j] + [x] + sorted[j..] && after[i + 1..] == before[i + 1..]
  {
  }
}
