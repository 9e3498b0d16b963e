/** The family dashboard: the list of events, its search and date filter, deletion, and which of
    its screens is shown. */
module Home {
  import opened Common
  import opened Text
  import opened Events

  const LoadEventsFallback := "Failed to load events."

  /** The search box matches when the lower-cased needle occurs in the lower-cased title or location. */
  predicate MatchesNeedle(e: Event, needle: string): (matches: bool)
    ensures needle == "" ==> matches
    ensures matches ==> |needle| <= |e.title| || |needle| <= |e.location|
  {
    ContainsEmpty(Lower(e.title));
    Contains(Lower(e.title), needle) || Contains(Lower(e.location), needle)
  }

  /** An empty date filter matches everything; otherwise the part of the event's date before 'T'
      must equal it. */
  predicate MatchesDate(e: Event, filterDate: string): (matches: bool)
    ensures filterDate == "" ==> matches
    ensures matches && filterDate != "" ==> IsPrefix(filterDate, e.date) && 'T' !in filterDate
  {
    filterDate == "" || BeforeT(e.date) == filterDate
  }

  /** `filteredEvents`: the events the dashboard shows for a search term and a date filter. An event
      is shown iff its title or location contains the search term, ignoring ASCII case, and the
      date filter is empty or equals the event's date part. */
  function FilteredEvents(events: seq<Event>, searchTerm: string, filterDate: string): (shown: seq<Event>)
    ensures |shown| <= |events|
    ensures forall e :: e in shown <==>
      && e in events
      && (Contains(Lower(e.title), Lower(searchTerm)) || Contains(Lower(e.location), Lower(searchTerm)))
      && (filterDate == "" || BeforeT(e.date) == filterDate)
  {
    var needle := Lower(searchTerm);
    Filter(events, e => MatchesNeedle(e, needle) && MatchesDate(e, filterDate))
  }

  /** The shown events keep their order and multiplicity: a subsequence of `events` holding every
      copy of each matching event. */
  lemma FilteredIsOrderedSubsequence(events: seq<Event>, searchTerm: string, filterDate: string)
    ensures SubsequenceOf(FilteredEvents(events, searchTerm, filterDate), events)
    ensures forall e :: (multiset(FilteredEvents(events, searchTerm, filterDate))[e] ==
                         if MatchesNeedle(e, Lower(searchTerm)) && MatchesDate(e, filterDate)
                         then multiset(events)[e] else 0)
  {
    var needle := Lower(searchTerm);
    FilterIsSubsequence(events, e => MatchesNeedle(e, needle) && MatchesDate(e, filterDate));
    FilterCounts(events, e => MatchesNeedle(e, needle) && MatchesDate(e, filterDate));
  }

  /** With no search term and no date filter every event is shown. */
  lemma EmptyFiltersShowAll(events: seq<Event>)
    ensures FilteredEvents(events, "", "") == events
  {
    forall e: Event ensures MatchesNeedle(e, "") {
      ContainsEmpty(Lower(e.title));
    }
    FilterKeepsAll(events, e => MatchesNeedle(e, Lower("")) && MatchesDate(e, ""));
  }

  /** The search ignores ASCII case: two terms that differ only in the case of their letters show
      the same events. */
  lemma SearchIgnoresCase(events: seq<Event>, term1: string, term2: string, filterDate: string)
    requires |term1| == |term2|
    requires forall i :: 0 <= i < |term1| ==> LowerChar(term1[i]) == LowerChar(term2[i])
    ensures FilteredEvents(events, term1, filterDate) == FilteredEvents(events, term2, filterDate)
  {
    assert Lower(term1) == Lower(term2);
  }

  /** Setting a date filter never shows an event that the search alone would hide, and keeps the
      order of those it shows. */
  lemma DateFilterNarrows(events: seq<Event>, searchTerm: string, filterDate: string)
    ensures SubsequenceOf(FilteredEvents(events, searchTerm, filterDate), FilteredEvents(events, searchTerm, ""))
    ensures |FilteredEvents(events, searchTerm, filterDate)| <= |FilteredEvents(events, searchTerm, "")|
  {
    var needle := Lower(searchTerm);
    FilterNarrows(events, e => MatchesNeedle(e, needle) && MatchesDate(e, filterDate),
                          e => MatchesNeedle(e, needle) && MatchesDate(e, ""));
    SubsequenceMembers(FilteredEvents(events, searchTerm, filterDate), FilteredEvents(events, searchTerm, ""));
  }

  /** A stored date without a time part passes a date filter set to that very date. */
  lemma PlainDatePassesItsOwnFilter(events: seq<Event>, searchTerm: string, e: Event)
    requires e in FilteredEvents(events, searchTerm, "")
    requires 'T' !in e.date
    ensures e in FilteredEvents(events, searchTerm, e.date)
  {
    BeforeTOfPlainDate(e.date);
  }

  /** `events.filter((e) => e._id !== eventId)`: the list after a successful delete. */
  function WithoutEvent(events: seq<Event>, eventId: string): (rest: seq<Event>)
    ensures |rest| <= |events|
    ensures forall e :: e in rest <==> e in events && e.id != eventId
  {
    Filter(events, (e: Event) => e.id != eventId)
  }

  /** After a delete no event with that id remains, every other event remains with its multiplicity,
      and the order is kept. */
  lemma WithoutEventRemovesExactlyThatId(events: seq<Event>, eventId: string)
    ensures forall e :: e in WithoutEvent(events, eventId) ==> e.id != eventId
    ensures forall e :: (multiset(WithoutEvent(events, eventId))[e] ==
                         if e.id == eventId then 0 else multiset(events)[e])
    ensures SubsequenceOf(WithoutEvent(events, eventId), events)
  {
    FilterCounts(events, (e: Event) => e.id != eventId);
    FilterIsSubsequence(events, (e: Event) => e.id != eventId);
  }

  /** What the page renders. */
  datatype Screen =
    | LoadingEvents
    | ErrorMessage(message: string)
    | NoEventsYet
    | NoMatchingEvents
    | EventCards(cards: seq<Event>)

  /** The rendering decision: the loading text first, then a non-empty error, then the empty
      states, then one card per shown event. */
  function ScreenOf(loading: bool, error: Option<string>, events: seq<Event>, searchTerm: string,
                    filterDate: string): (screen: Screen)
    ensures loading ==> screen == LoadingEvents
    ensures !loading && !Falsy(error) ==> screen == ErrorMessage(error.value)
    ensures !loading && Falsy(error) ==>
      && (screen == NoEventsYet <==> events == [])
      && (screen == NoMatchingEvents <==> events != [] && FilteredEvents(events, searchTerm, filterDate) == [])
      && (screen.EventCards? <==> FilteredEvents(events, searchTerm, filterDate) != [])
      && (screen.EventCards? ==> screen.cards == FilteredEvents(events, searchTerm, filterDate))
  {
    if loading then LoadingEvents
    else if !Falsy(error) then ErrorMessage(error.value)
    else if |events| == 0 then NoEventsYet
    else
      var shown := FilteredEvents(events, searchTerm, filterDate);
      if |shown| == 0 then NoMatchingEvents else EventCards(shown)
  }

  /** The body of the delete request. */
  datatype DeleteRequest = DeleteRequest(eventId: string, username: Option<string>, userfamily: Option<string>)

  /** The state of the `Home` component. */
  class HomePage {
    var events: seq<Event>
    var loading: bool
    var error: Option<string>
    var searchTerm: string
    var filterDate: string

    constructor ()
      ensures events == [] && loading && error == None && searchTerm == "" && filterDate == ""
    {
      events := [];
      loading := true;
      error := None;
      searchTerm := "";
      filterDate := "";
    }

    /** The fetch effect. Without a token or a family id nothing changes (the page stays on its
        loading text); otherwise loading ends with the family's events or with an error. */
    method FetchEvents(token: Option<string>, familyId: Option<string>, reply: Reply<seq<Event>>)
      modifies this
      ensures searchTerm == old(searchTerm) && filterDate == old(filterDate)
      ensures Falsy(token) || Falsy(familyId) ==>
        events == old(events) && loading == old(loading) && error == old(error)
      ensures !Falsy(token) && !Falsy(familyId) ==> !loading
      ensures !Falsy(token) && !Falsy(familyId) && reply.Success? ==>
        events == reply.data && error == None
      ensures !Falsy(token) && !Falsy(familyId) && reply.Failure? ==>
        events == old(events) && error == Some(ShownError(reply.serverMessage, LoadEventsFallback))
    {
      if Falsy(token) || Falsy(familyId) {
        return;
      }
      match reply {
        case Success(data) =>
          events := data;
          error := None;
        case Failure(message) =>
          error := Some(ShownError(message, LoadEventsFallback));
      }
      loading := false;
    }

    /** `handleDelete`: asks for confirmation, sends the delete request, and on success drops the
        event from the list; a declined confirmation or a failed request leaves the list as it was. */
    method HandleDelete(eventId: string, confirmed: bool, username: Option<string>,
                        userfamily: Option<string>, reply: Reply<()>)
      returns (request: Option<DeleteRequest>)
      modifies this`events
      ensures request == (if confirmed then Some(DeleteRequest(eventId, username, userfamily)) else None)
      ensures events == if confirmed && reply.Success? then WithoutEvent(old(events), eventId) else old(events)
    {
      request := None;
      if !confirmed {
        return;
      }
      request := Some(DeleteRequest(eventId, username, userfamily));
      if reply.Success? {
        events := WithoutEvent(events, eventId);
      }
    }

    method SetSearchTerm(value: string)
      modifies this`searchTerm
      ensures searchTerm == value
    {
      searchTerm := value;
    }

    method SetFilterDate(value: string)
      modifies this`filterDate
      ensures filterDate == value
    {
      filterDate := value;
    }
  }
}
