/** The search bar: the query being typed, the filter values chosen per key,
    whether the filter panel is open, and the searches it reports to its
    owner. */
module SearchBar {

  /** One filter the owner offers: its key, its caption and its options. */
  datatype FilterSpec = FilterSpec(key: string, caption: string, options: seq<string>)

  /** One call of the owner's `onSearch`, with the query and the filters. */
  datatype Search = Search(query: string, filters: map<string, string>)

  class Bar {
    const filters: seq<FilterSpec>
    var query: string
    var showFilters: bool
    var activeFilters: map<string, string>
    /** The searches reported so far, oldest first. */
    var reports: seq<Search>

    constructor(filters: seq<FilterSpec>)
      ensures this.filters == filters
      ensures query == "" && !showFilters && activeFilters == map[] && reports == []
    {
      this.filters := filters;
      query := "";
      showFilters := false;
      activeFilters := map[];
      reports := [];
    }

    /** The filter panel is shown only while it is open and there are
        filters to show. */
    predicate PanelVisible()
      reads this
    {
      showFilters && |filters| > 0
    }

    /** The clear button is shown while the query is not empty. */
    predicate ClearVisible()
      reads this
    {
      query != ""
    }

    /** The value a filter's selector shows: the chosen option, or "All". */
    function Selected(key: string): (v: string)
      reads this
      ensures key !in activeFilters ==> v == ""
      ensures key in activeFilters ==> v == activeFilters[key]
    {
      if key in activeFilters then activeFilters[key] else ""
    }

    /** Typing changes the query and nothing else. */
    method SetQuery(text: string)
      modifies this
      ensures query == text
      ensures activeFilters == old(activeFilters) && showFilters == old(showFilters) && reports == old(reports)
    {
      query := text;
    }

    /** `handleSearch`: reports the current query and filters. */
    method HandleSearch()
      modifies this
      ensures reports == old(reports) + [Search(query, activeFilters)]
      ensures query == old(query) && activeFilters == old(activeFilters) && showFilters == old(showFilters)
    {
      reports := reports + [Search(query, activeFilters)];
    }

    /** A key press in the input: Enter searches, any other key does nothing. */
    method KeyPress(key: string)
      modifies this
      ensures key == "Enter" ==> reports == old(reports) + [Search(query, activeFilters)]
      ensures key != "Enter" ==> reports == old(reports)
      ensures query == old(query) && activeFilters == old(activeFilters) && showFilters == old(showFilters)
    {
      if key == "Enter" {
        HandleSearch();
      }
    }

    /** `clearSearch`: empties the query and the filters and reports the empty
        search. */
    method ClearSearch()
      modifies this
      ensures query == "" && activeFilters == map[]
      ensures reports == old(reports) + [Search("", map[])]
      ensures showFilters == old(showFilters)
      ensures !ClearVisible() && forall key :: Selected(key) == ""
    {
      query := "";
      activeFilters := map[];
      reports := reports + [Search("", map[])];
    }

    /** Choosing `value` for the filter `key` sets that key alone. */
    method SelectOption(key: string, value: string)
      modifies this
      ensures activeFilters == old(activeFilters)[key := value]
      ensures Selected(key) == value
      ensures forall k :: k != key ==> (k in activeFilters <==> k in old(activeFilters))
      ensures forall k :: k != key && k in activeFilters ==> activeFilters[k] == old(activeFilters)[k]
      ensures query == old(query) && showFilters == old(showFilters) && reports == old(reports)
    {
      activeFilters := activeFilters[key := value];
    }

    /** The filter button, shown only when there are filters, opens or closes
        the panel. */
    method ToggleFilters()
      modifies this
      ensures |filters| > 0 ==> showFilters == !old(showFilters)
      ensures |filters| == 0 ==> showFilters == old(showFilters) && !PanelVisible()
      ensures query == old(query) && activeFilters == old(activeFilters) && reports == old(reports)
    {
      if |filters| > 0 {
        showFilters := !showFilters;
      }
    }
  }
}
