/** The public event listing: a page of events with their sessions, and the
    sessions the visitor has registered for, kept as a map from session id to the
    registration id the backend issued. */
module EventDiscovery {
  import opened Wrappers
  import JsText
  import TimeRanges

  /** One event of the page and the ids of its sessions. */
  datatype EventItem = EventItem(eventId: string, title: string, sessionIds: seq<string>)

  /** What `getEvents` did: answered (`events`, `total_pages` and `page` may be
      missing, a missing or zero number reads as falsy) or threw. */
  datatype FetchReply =
    | Fetched(success: bool, events: Option<seq<EventItem>>, totalPages: Option<int>, page: Option<int>)
    | FetchThrew

  /** What a registration service did: answered with its `success` flag (and,
      for a registration, the id in `session_detail`), or threw. */
  datatype Reply = Answered(success: bool, registrationId: string) | Threw

  /** The service call `handleAttendance` makes. */
  datatype Call = RegisterCall(eventId: string, sessionId: string) | DeleteCall(registrationId: string)

  /** `time.split(':').slice(0, 2).join(':')`, and "00:00" for no time. */
  function FormatTime(time: string): (r: string)
    ensures time == [] ==> r == "00:00"
  {
    if time == [] then "00:00" else JsText.Join(JsText.Take(JsText.Split(time, ':'), 2), ':')
  }

  /** A time with at most one colon is shown as it is. */
  lemma FormatTimeKeepsShort(time: string)
    requires time != [] && JsText.Occurrences(time, ':') <= 1
    ensures FormatTime(time) == time
  {
    JsText.JoinSplit(time, ':');
    var parts := JsText.Split(time, ':');
    assert |parts| <= 2;
    assert JsText.Take(parts, 2) == parts by {
      if |parts| == 2 { assert parts[..2] == parts; }
    }
  }

  /** The first two pieces of a time with a seconds part. */
  lemma SplitWithSeconds(a: string, b: string, c: string)
    requires ':' !in a && ':' !in b
    ensures JsText.Split(a + [':'] + (b + [':'] + c), ':') == [a, b] + JsText.Split(c, ':')
  {
    JsText.SplitAtFirst(a, ':', b + [':'] + c);
    JsText.SplitAtFirst(b, ':', c);
  }

  /** Seconds, and anything after them, are dropped. */
  lemma FormatTimeDropsSeconds(a: string, b: string, c: string)
    requires ':' !in a && ':' !in b
    ensures FormatTime(a + [':'] + (b + [':'] + c)) == a + [':'] + b
  {
    SplitWithSeconds(a, b, c);
    var parts := [a, b] + JsText.Split(c, ':');
    assert JsText.Take(parts, 2) == [a, b];
    assert JsText.Join([a, b], ':') == a + [':'] + b;
  }

  /** A time stored by the schedule forms (`ensureSeconds` of "HH:MM") is shown
      as it was entered. */
  lemma StoredTimeShownAsEntered(a: string, b: string)
    requires ':' !in a && ':' !in b
    ensures FormatTime(TimeRanges.EnsureSeconds(a + ":" + b)) == a + ":" + b
  {
    TimeRanges.SplitAtColon(a, b);
    assert a + ":" + b + ":00" == a + [':'] + (b + [':'] + "00");
    FormatTimeDropsSeconds(a, b, "00");
  }

  /** `x || fallback` for a number that may be missing. */
  function OrElse(x: Option<int>, fallback: int): (r: int)
    ensures x.Some? && x.value != 0 ==> r == x.value
    ensures x.None? || x.value == 0 ==> r == fallback
  {
    if x.Some? && x.value != 0 then x.value else fallback
  }

  class Discovery {
    var data: seq<EventItem>
    var loading: bool
    var registeredSessions: map<string, string>
    var currentPage: int
    var totalPages: int

    /** Nothing loaded yet, page 1 of 1, no registrations. */
    constructor()
      ensures data == [] && loading && registeredSessions == map[] && currentPage == 1 && totalPages == 1
    {
      data := [];
      loading := true;
      registeredSessions := map[];
      currentPage := 1;
      totalPages := 1;
    }

    /** `fetchEventsData(page)`: a successful answer with events replaces the
        page, its total (1 when missing) and its number (the one asked for when
        missing); anything else keeps them. Loading ends either way. */
    method FetchEventsData(page: int, reply: FetchReply)
      modifies this`data, this`loading, this`currentPage, this`totalPages
      ensures !loading
      ensures reply.Fetched? && reply.success && reply.events.Some? ==>
                data == reply.events.value && totalPages == OrElse(reply.totalPages, 1) &&
                currentPage == OrElse(reply.page, page)
      ensures !(reply.Fetched? && reply.success && reply.events.Some?) ==>
                data == old(data) && totalPages == old(totalPages) && currentPage == old(currentPage)
    {
      loading := true;
      if reply.Fetched? && reply.success && reply.events.Some? {
        data := reply.events.value;
        totalPages := OrElse(reply.totalPages, 1);
        currentPage := OrElse(reply.page, page);
      }
      loading := false;
    }

    /** The pagination control is shown once loaded and when there is more than
        one page. */
    predicate ShowsPagination()
      reads this
    {
      !loading && totalPages > 1
    }

    /** A session is shown as registered, with the button to cancel, exactly
        when it has an entry in the map. */
    predicate IsRegistered(sessionId: string)
      reads this
    {
      sessionId in registeredSessions
    }

    /** `handlePageChange`: the page asked for becomes the current page. */
    method HandlePageChange(page: int)
      modifies this`currentPage
      ensures currentPage == page
    {
      currentPage := page;
    }

    /** `handleAttendance`. Attending calls the register service and, on success,
        files the issued registration id under the session. Not attending looks
        the registration id up and, when there is none (or it is empty), returns
        without a call; otherwise it calls the delete service and, on success,
        drops the session's entry. A `success: false` answer leaves the map as it
        was, and a thrown call restores the copy taken on entry. */
    method HandleAttendance(eventId: string, sessionId: string, isAttending: bool, reply: Reply)
      returns (called: Option<Call>)
      modifies this`registeredSessions
      ensures isAttending ==> called == Some(RegisterCall(eventId, sessionId))
      ensures !isAttending && (sessionId !in old(registeredSessions) || old(registeredSessions)[sessionId] == "") ==>
                called.None? && registeredSessions == old(registeredSessions)
      ensures !isAttending && sessionId in old(registeredSessions) && old(registeredSessions)[sessionId] != "" ==>
                called == Some(DeleteCall(old(registeredSessions)[sessionId]))
      ensures called.Some? && reply.Answered? && reply.success ==>
                registeredSessions == if isAttending then old(registeredSessions)[sessionId := reply.registrationId]
                                      else old(registeredSessions) - {sessionId}
      ensures called.Some? && !(reply.Answered? && reply.success) ==> registeredSessions == old(registeredSessions)
    {
      var previousState := registeredSessions;
      if isAttending {
        called := Some(RegisterCall(eventId, sessionId));
        if reply.Threw? {
          registeredSessions := previousState;
        } else if reply.success {
          registeredSessions := registeredSessions[sessionId := reply.registrationId];
        }
      } else {
        if sessionId !in registeredSessions || registeredSessions[sessionId] == "" {
          return None;
        }
        var registrationId := registeredSessions[sessionId];
        called := Some(DeleteCall(registrationId));
        if reply.Threw? {
          registeredSessions := previousState;
        } else if reply.success {
          registeredSessions := registeredSessions - {sessionId};
        }
      }
    }
  }
}
