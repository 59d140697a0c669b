/** The journeys admin page: the list filter and the status badge. */
module JourneysPage {
  import opened Wrappers
  import opened Text
  import opened Lists
  import Store

  /** A journey as the page receives it; any field may be null. */
  datatype Journey = Journey(id: Store.Id, title: Option<string>, location: Option<string>,
                             category: Option<string>, status: Option<string>)

  const AllCategories: string := "All"
  const ActiveStatus: string := "active"

  /** The search looks at the title and the location only. */
  predicate MatchesSearch(j: Journey, term: string) {
    MatchesFolded(j.title, term) || MatchesFolded(j.location, term)
  }

  predicate MatchesCategory(j: Journey, category: string) {
    category == AllCategories || j.category == Some(category)
  }

  /** `filteredJourneys`. */
  function FilteredJourneys(journeys: seq<Journey>, term: string, category: string): (r: seq<Journey>)
    ensures IsSubsequence(r, journeys)
    ensures forall j :: j in r <==> j in journeys && MatchesSearch(j, term) && MatchesCategory(j, category)
  {
    var keep := (j: Journey) => MatchesSearch(j, term) && MatchesCategory(j, category);
    FilterIsSubsequence(journeys, keep);
    forall j ensures j in Filter(journeys, keep) <==> j in journeys && keep(j) {
      FilterMembership(journeys, keep, j);
    }
    Filter(journeys, keep)
  }

  /** An empty search keeps every journey of the category that has a title
      or a location. */
  lemma EmptySearchKeepsJourneysWithText(journeys: seq<Journey>, category: string, j: Journey)
    ensures j in FilteredJourneys(journeys, "", category) <==>
              j in journeys && (j.title.Some? || j.location.Some?) && MatchesCategory(j, category)
  {
    if j.title.Some? { MatchesFoldedCase(j.title.value, ""); }
    if j.location.Some? { MatchesFoldedCase(j.location.value, ""); }
  }

  /** The category is never searched: changing a journey's category never
      changes whether it matches the term. So under "All" a journey is
      listed exactly when its title or location contains the term, and one
      with neither is never listed, whatever its category holds. */
  lemma CategoryNotSearched(journeys: seq<Journey>, j: Journey, term: string, category: Option<string>)
    ensures MatchesSearch(j.(category := category), term) <==> MatchesSearch(j, term)
    ensures j in FilteredJourneys(journeys, term, AllCategories) <==>
              j in journeys && (MatchesFolded(j.title, term) || MatchesFolded(j.location, term))
    ensures j.title.None? && j.location.None? ==> j !in FilteredJourneys(journeys, term, AllCategories)
  {
  }

  /** `journey.status || 'active'`, the text of the badge. */
  function StatusLabel(status: Option<string>): (r: string)
    ensures r != ""
    ensures status.Some? && status.value != "" ==> r == status.value
    ensures status.None? || status == Some("") ==> r == ActiveStatus
  {
    if status.Some? && status.value != "" then status.value else ActiveStatus
  }

  /** `journey.status === "active"`: the badge is green only then. */
  predicate GreenBadge(status: Option<string>) {
    status == Some(ActiveStatus)
  }

  /** A journey without a status is labelled "active" but gets the grey badge
      of an inactive one; whenever the badge is green its label is "active". */
  lemma MissingStatusLooksInactive()
    ensures StatusLabel(None) == ActiveStatus && !GreenBadge(None)
    ensures forall s :: GreenBadge(s) ==> StatusLabel(s) == ActiveStatus
  {
  }
}
