/** The calendar page of app/routes/_app.calendar.tsx: which users' events
    the loader asks for, the list of user ids whose events are shown, the
    toggle that hides or shows one user, and the events that pass the
    filter. */
module CalendarPage {
  import opened Wrappers
  import opened Seqs
  import opened Store

  /** An event as the page receives it; `start` and `end` are instants. */
  datatype CalendarEvent = CalendarEvent(id: string, title: string, start: int, end: int, userId: string)

  // ---- Loader ----

  /** What the loader returns, before the time-zone formatting of the
      event times. `queriedUserIds` is the list joined with ',' for the
      events query. */
  datatype LoaderData = LoaderData(
    currentUser: User,
    teamMembers: seq<User>,
    queriedUserIds: seq<string>,
    userRoles: seq<string>)

  predicate SeesTeam(userRoles: seq<string>) {
    "team_owner" in userRoles || "manager" in userRoles
  }

  function Ids(users: seq<User>): (ids: seq<string>)
    ensures |ids| == |users| && forall i :: 0 <= i < |users| ==> ids[i] == users[i].id
  {
    seq(|users|, i requires 0 <= i < |users| => users[i].id)
  }

  /** The loader for `userId`, whose role names are `userRoles`;
      `teamMembersOf` stands for `getTeamMembers`. The team is looked up by
      the current user's `teamOwnerId`, or by `""` when it is null. */
  function Loader(users: seq<User>, userId: string, userRoles: seq<string>,
                  teamMembersOf: string -> seq<User>): (r: Result<LoaderData, string>)
    ensures UserById(users, userId).None? <==> r.Failure?
    ensures r.Success? ==>
      && r.value.currentUser == UserById(users, userId).value
      && (SeesTeam(userRoles) ==>
            && r.value.teamMembers == teamMembersOf(r.value.currentUser.teamOwnerId.GetOr(""))
            && r.value.queriedUserIds == [userId] + Ids(r.value.teamMembers))
      && (!SeesTeam(userRoles) ==> r.value.teamMembers == [] && r.value.queriedUserIds == [userId])
  {
    var currentUser := UserById(users, userId);
    var teamOwnerId := if currentUser.Some? then currentUser.value.teamOwnerId.GetOr("") else "";
    if currentUser.None? then Failure("User not found")
    else if SeesTeam(userRoles) then
      var teamMembers := teamMembersOf(teamOwnerId);
      Success(LoaderData(currentUser.value, teamMembers, [userId] + Ids(teamMembers), userRoles))
    else Success(LoaderData(currentUser.value, [], [userId], userRoles))
  }

  // ---- Visibility ----

  /** The initial `visibleUsers`: the current user, then every team
      member. */
  function InitialVisible(currentUserId: string, teamMembers: seq<User>): (r: seq<string>)
    ensures currentUserId in r
    ensures forall i :: 0 <= i < |teamMembers| ==> teamMembers[i].id in r
    ensures forall i :: 0 <= i < |r| ==> r[i] == currentUserId || exists k :: 0 <= k < |teamMembers| && r[i] == teamMembers[k].id
  {
    var r := [currentUserId] + Ids(teamMembers);
    assert forall i :: 0 <= i < |teamMembers| ==> r[i + 1] == teamMembers[i].id;
    assert forall i :: 1 <= i < |r| ==> r[i] == teamMembers[i - 1].id;
    r
  }

  /** `toggleUserVisibility`: drop every occurrence of `id`, or append it
      when absent. */
  function Toggle(visible: seq<string>, id: string): (r: seq<string>)
    ensures id in r <==> id !in visible
    ensures forall x :: x != id ==> (x in r <==> x in visible)
  {
    if id in visible then Filter((x: string) => x != id, visible)
    else
      var r := visible + [id];
      assert r[|visible|] == id;
      r
  }

  /** Toggling keeps the other ids in their relative order. */
  lemma ToggleKeepsOthers(visible: seq<string>, id: string)
    ensures Filter((x: string) => x != id, Toggle(visible, id)) == Filter((x: string) => x != id, visible)
  {
    var p := (x: string) => x != id;
    if id in visible {
      FilterIdempotent(p, visible);
    } else {
      FilterAppend(p, visible, [id]);
      FilterNoneKept(p, [id]);
    }
  }

  /** Toggling an absent id twice gives the list back. */
  lemma ToggleTwiceAbsent(visible: seq<string>, id: string)
    requires id !in visible
    ensures Toggle(Toggle(visible, id), id) == visible
  {
    var p := (x: string) => x != id;
    FilterAppend(p, visible, [id]);
    FilterAllKept(p, visible);
    FilterNoneKept(p, [id]);
  }

  /** Toggling a present id twice moves it to the end, once. */
  lemma ToggleTwicePresent(visible: seq<string>, id: string)
    requires id in visible
    ensures Toggle(Toggle(visible, id), id) == Filter((x: string) => x != id, visible) + [id]
  {
  }

  /** `filteredEvents`: the events of visible users, in their order. */
  function FilteredEvents(events: seq<CalendarEvent>, visible: seq<string>): (r: seq<CalendarEvent>)
    ensures IsSubsequence(r, events)
    ensures forall i :: 0 <= i < |r| ==> r[i].userId in visible
    ensures forall i :: 0 <= i < |events| && events[i].userId in visible ==> events[i] in r
    ensures forall e :: multiset(r)[e] == if e.userId in visible then multiset(events)[e] else 0
  {
    FilterCounts((e: CalendarEvent) => e.userId in visible, events);
    Filter((e: CalendarEvent) => e.userId in visible, events)
  }

  /** Before any toggle, every event of the current user or a team member
      is shown. */
  lemma InitiallyAllShown(events: seq<CalendarEvent>, currentUserId: string, teamMembers: seq<User>)
    requires forall i :: 0 <= i < |events| ==>
      events[i].userId == currentUserId || exists k :: 0 <= k < |teamMembers| && events[i].userId == teamMembers[k].id
    ensures FilteredEvents(events, InitialVisible(currentUserId, teamMembers)) == events
  {
    var visible := InitialVisible(currentUserId, teamMembers);
    FilterAllKept((e: CalendarEvent) => e.userId in visible, events);
  }

  /** Hiding a user removes exactly that user's events and keeps the
      others in order. */
  lemma HidingRemovesOnlyThatUser(events: seq<CalendarEvent>, visible: seq<string>, id: string)
    requires id in visible
    ensures FilteredEvents(events, Toggle(visible, id))
         == Filter((e: CalendarEvent) => e.userId != id, FilteredEvents(events, visible))
  {
    var after := Toggle(visible, id);
    var p := (e: CalendarEvent) => e.userId in visible;
    var q := (e: CalendarEvent) => e.userId != id;
    var shownAfter := (e: CalendarEvent) => e.userId in after;
    forall e: CalendarEvent ensures shownAfter(e) == (p(e) && q(e)) {
      ToggleMembership(visible, id, e.userId);
    }
    FilterFilter(p, q, shownAfter, events);
  }

  lemma ToggleMembership(visible: seq<string>, id: string, x: string)
    requires id in visible
    ensures x in Toggle(visible, id) <==> x in visible && x != id
  {
  }

  /** The component's `visibleUsers` state. */
  class VisibleUsers {
    var visibleUsers: seq<string>

    constructor (currentUserId: string, teamMembers: seq<User>)
      ensures visibleUsers == InitialVisible(currentUserId, teamMembers)
    {
      visibleUsers := InitialVisible(currentUserId, teamMembers);
    }

    method ToggleUserVisibility(id: string)
      modifies this
      ensures visibleUsers == Toggle(old(visibleUsers), id)
      ensures id in visibleUsers <==> id !in old(visibleUsers)
    {
      visibleUsers := Toggle(visibleUsers, id);
    }

    function Shown(events: seq<CalendarEvent>): (r: seq<CalendarEvent>)
      reads this
      ensures r == FilteredEvents(events, visibleUsers)
      ensures forall i :: 0 <= i < |r| ==> r[i].userId in visibleUsers
    {
      FilteredEvents(events, visibleUsers)
    }
  }
}
