/** src/components/Materials/MaterialFilters.tsx: the search box and the
    category, year and sort menus above the listing. */
module MaterialFilters {
  import opened Types

  /** `MaterialFiltersState`: an empty string means "no filter". */
  datatype FilterState = FilterState(search: string, category: string, year: string, sort: string)

  /** The state both this component and the listing page start from. */
  const Initial: FilterState := FilterState("", "", "", "newest")

  /** The names `handleFilterChange` is called with. */
  datatype FilterField = Search | CategoryField | YearField | SortField

  function Get(state: FilterState, field: FilterField): string {
    match field
    case Search => state.search
    case CategoryField => state.category
    case YearField => state.year
    case SortField => state.sort
  }

  /** `handleFilterChange`: the stored state and the state handed to
      `onFilterChange`, which are the same record. */
  function HandleFilterChange(state: FilterState, field: FilterField, value: string)
    : (r: (FilterState, FilterState))
    ensures r.0 == r.1
    ensures Get(r.0, field) == value
    ensures forall f :: f != field ==> Get(r.0, f) == Get(state, f)
  {
    var next := match field
      case Search => state.(search := value)
      case CategoryField => state.(category := value)
      case YearField => state.(year := value)
      case SortField => state.(sort := value);
    (next, next)
  }

  /** A menu entry: its caption and the value it stores. */
  datatype MenuOption = MenuOption(caption: string, value: string)

  const CategoryOptions: seq<MenuOption> := [
    MenuOption("All Categories", ""),
    MenuOption("Previous Year Papers", "Previous Year Papers"),
    MenuOption("Handwritten Notes", "Handwritten Notes"),
    MenuOption("Books", "Books"),
    MenuOption("Short Notes", "Short Notes"),
    MenuOption("Handbooks", "Handbooks")]

  const YearOptions: seq<MenuOption> := [
    MenuOption("All Years", ""),
    MenuOption("1st Year", "1st Year"),
    MenuOption("2nd Year", "2nd Year"),
    MenuOption("3rd Year", "3rd Year"),
    MenuOption("4th Year", "4th Year")]

  const SortOptions: seq<MenuOption> := [
    MenuOption("Newest", "newest"),
    MenuOption("Oldest", "oldest"),
    MenuOption("Most Popular", "popular")]

  /** The category menu offers "no filter" first and then every category
      once, in declaration order, each labelled with its own value; the year
      menu likewise. */
  lemma MenusCoverEnums()
    ensures CategoryOptions[0].value == "" && YearOptions[0].value == ""
    ensures |CategoryOptions| == 6 && |YearOptions| == 5
    ensures forall c: Category :: MenuOption(CategoryName(c), CategoryName(c)) in CategoryOptions[1..]
    ensures forall i :: 1 <= i < |CategoryOptions| ==>
              ParseCategory(CategoryOptions[i].value).Some? && CategoryOptions[i].caption == CategoryOptions[i].value
    ensures forall y: Year :: MenuOption(YearName(y), YearName(y)) in YearOptions[1..]
    ensures forall i :: 1 <= i < |YearOptions| ==>
              ParseYear(YearOptions[i].value).Some? && YearOptions[i].caption == YearOptions[i].value
  {
  }

  /** The debounced search: when the timer fires, the typed text is passed on
      through `handleFilterChange` only if it differs from the search of
      `state`, the filters the callback captured when it was created.
      Returns the state afterwards and what `onFilterChange` received. */
  function DebounceFire(state: FilterState, searchInput: string): (r: (FilterState, Option<FilterState>))
    ensures r.1.Some? <==> searchInput != state.search
    ensures r.1.Some? ==> r.1.value == r.0
    ensures r.0 == state.(search := searchInput)
  {
    if searchInput != state.search then
      var (stored, emitted) := HandleFilterChange(state, Search, searchInput);
      (stored, Some(emitted))
    else (state, None)
  }

  /** A second firing with the same text passes nothing on, and a firing
      keeps the menu fields of the filters it reads. */
  lemma DebounceSettles(state: FilterState, searchInput: string)
    ensures var (after, _) := DebounceFire(state, searchInput);
            DebounceFire(after, searchInput) == (after, None)
    ensures forall f :: f != Search ==> Get(DebounceFire(state, searchInput).0, f) == Get(state, f)
  {
  }
}
