/** The action of app/routes/api.create-booking.ts: the public booking
    endpoint that embedded widgets post to. It checks the API key, stores a
    booking for the contractor named in the form, counts one use of the key,
    and then runs the calendar and e-mail integrations. No availability or
    overlap check is made. */
module CreateBookingRoute {
  import opened Wrappers
  import opened Clock
  import opened JsText
  import opened Store
  import opened ApiKey

  /** The posted form fields. */
  type Form = map<string, string>

  /** `formData.get(name) as string`; a missing field reads as `""`, which
      every use below treats like the `null` the form returns. */
  function Field(form: Form, name: string): string {
    if name in form then form[name] else ""
  }

  /** `formData.get(name) as string || fallback`. */
  function FieldOr(form: Form, name: string, fallback: string): (s: string)
    ensures fallback != "" ==> s != ""
    ensures Field(form, name) != "" ==> s == form[name]
    ensures Field(form, name) == "" ==> s == fallback
  {
    if Field(form, name) != "" then Field(form, name) else fallback
  }

  const DefaultDurationMinutes: int := 60

  /** `parseInt(duration) || 60`: `NaN` and `0` are falsy. */
  function Duration(form: Form): (d: int)
    ensures d != 0
    ensures ParseInt(Field(form, "duration")).Some? && ParseInt(Field(form, "duration")).value != 0
        ==> d == ParseInt(Field(form, "duration")).value
    ensures ParseInt(Field(form, "duration")) == None || ParseInt(Field(form, "duration")) == Some(0)
        ==> d == DefaultDurationMinutes
  {
    match ParseInt(Field(form, "duration"))
    case Some(v) => if v != 0 then v else DefaultDurationMinutes
    case None => DefaultDurationMinutes
  }

  /** The row `booking.create` is given, for the start instant that
      `new Date(date + "T" + time)` yields. */
  function BookingData(form: Form, start: int): Booking {
    var userId := Field(form, "userId");
    Booking(0, userId, userId,
      FieldOr(form, "customerFirstName", "John"),
      FieldOr(form, "customerLastName", "Doe"),
      FieldOr(form, "customerEmail", "john.doe@example.com"),
      FieldOr(form, "city", "Chicago"),
      FieldOr(form, "state", "IL"),
      FieldOr(form, "address", "123 Main St"),
      FieldOr(form, "description", "Booking notes"),
      start,
      start + Duration(form) * MinuteMs)
  }

  datatype Response = Failed(status: int, error: string) | Created(booking: Booking)

  /** The database after the action, and its answer. */
  datatype Outcome = Outcome(tables: Tables, response: Response)

  predicate HoldsKey(apiKey: string, u: User) {
    u.apiKey == Some(apiKey)
  }

  function AddUse(u: User): User {
    u.(usageCount := u.usageCount + 1)
  }

  /** `incrementUsage(apiKey)`: one more use for the key's holder. */
  function IncrementUsage(t: Tables, apiKey: string): (r: Tables)
    ensures WellFormed(t) ==> WellFormed(r)
  {
    UpdateUsers(t, (u: User) => HoldsKey(apiKey, u), AddUse)
  }

  /** The action. `start` is the instant the date and time fields denote
      (`None` for an invalid date, which makes the insert throw);
      `integrationsOk` says whether the calendar and e-mail calls
      succeed. The booking's `contractor` relation makes the insert throw
      as well when `userId` names no user, so then nothing is written. */
  function CreateBooking(t: Tables, form: Form, start: Option<int>, integrationsOk: bool): (o: Outcome)
    ensures WellFormed(t) ==> WellFormed(o.tables)
  {
    var apiKey := Field(form, "apiKey");
    if apiKey == "" then Outcome(t, Failed(400, "API key is required"))
    else if !ValidateApiKey(t.users, apiKey) then Outcome(t, Failed(403, "Invalid API key or usage limit exceeded"))
    else if start.None? || UserById(t.users, Field(form, "userId")).None? then
      Outcome(t, Failed(500, "Failed to create booking"))
    else
      var t1 := InsertBooking(t, BookingData(form, start.value));
      var t2 := IncrementUsage(t1, apiKey);
      if !integrationsOk then Outcome(t2, Failed(500, "Failed to create booking"))
      else Outcome(t2, Created(BookingData(form, start.value).(id := t.nextId)))
  }

  /** The action against the database client. */
  method Action(db: Db, form: Form, start: Option<int>, integrationsOk: bool) returns (response: Response)
    requires db.Valid()
    modifies db
    ensures db.Valid()
    ensures db.Snapshot() == CreateBooking(old(db.Snapshot()), form, start, integrationsOk).tables
    ensures response == CreateBooking(old(db.Snapshot()), form, start, integrationsOk).response
  {
    var apiKey := Field(form, "apiKey");
    var userId := Field(form, "userId");
    if apiKey == "" {
      return Failed(400, "API key is required");
    }
    var isValidApiKey := ValidateApiKey(db.users, apiKey);
    if !isValidApiKey {
      return Failed(403, "Invalid API key or usage limit exceeded");
    }
    if start.None? || UserById(db.users, userId).None? {
      return Failed(500, "Failed to create booking");
    }
    var booking := db.CreateBooking(BookingData(form, start.value));
    db.UpdateUsersWhere((u: User) => HoldsKey(apiKey, u), AddUse);
    if !integrationsOk {
      return Failed(500, "Failed to create booking");
    }
    response := Created(booking);
  }

  /** Without a key nothing is read or written and the answer is 400. */
  lemma MissingKeyRejected(t: Tables, form: Form, start: Option<int>, integrationsOk: bool)
    requires "apiKey" !in form || form["apiKey"] == ""
    ensures CreateBooking(t, form, start, integrationsOk) == Outcome(t, Failed(400, "API key is required"))
  {
  }

  /** A key that no user holds, or whose holder is over quota, changes
      nothing and is answered with 403. */
  lemma InvalidKeyRejected(t: Tables, form: Form, start: Option<int>, integrationsOk: bool)
    requires Field(form, "apiKey") != ""
    requires forall i :: 0 <= i < |t.users| && t.users[i].apiKey == Some(form["apiKey"]) ==> !WithinQuota(t.users[i])
    ensures CreateBooking(t, form, start, integrationsOk).tables == t
    ensures CreateBooking(t, form, start, integrationsOk).response.Failed?
    ensures CreateBooking(t, form, start, integrationsOk).response.status == 403
  {
  }

  /** An accepted request for a registered contractor appends exactly one
      booking, for the contractor and team owner named by `userId`, lasting
      `Duration` minutes, with each missing customer field set to its fixed
      default; every holder of the key gets one more use and no other row
      changes. Existing bookings are not consulted, so a
      double booking is stored like any other. */
  lemma AcceptedRequestWrites(t: Tables, form: Form, start: int, integrationsOk: bool)
    requires Field(form, "apiKey") != "" && ValidateApiKey(t.users, form["apiKey"])
    requires exists i :: 0 <= i < |t.users| && t.users[i].id == Field(form, "userId")
    ensures var r := CreateBooking(t, form, Some(start), integrationsOk).tables;
      && |r.bookings| == |t.bookings| + 1
      && r.bookings[..|t.bookings|] == t.bookings
      && var b := r.bookings[|t.bookings|];
      && b == BookingData(form, start).(id := t.nextId)
      && b.contractorId == Field(form, "userId") && b.teamOwnerId == Field(form, "userId")
      && b.startDateTime == start
      && b.endDateTime - b.startDateTime == Duration(form) * MinuteMs
      && Defaulted(form, "customerFirstName", b.customerFirstName, "John")
      && Defaulted(form, "customerLastName", b.customerLastName, "Doe")
      && Defaulted(form, "customerEmail", b.customerEmail, "john.doe@example.com")
      && Defaulted(form, "city", b.city, "Chicago")
      && Defaulted(form, "state", b.state, "IL")
      && Defaulted(form, "address", b.address, "123 Main St")
      && Defaulted(form, "description", b.description, "Booking notes")
      && |r.users| == |t.users|
      && (forall i :: 0 <= i < |t.users| ==>
            r.users[i] == if t.users[i].apiKey == Some(form["apiKey"])
                          then t.users[i].(usageCount := t.users[i].usageCount + 1)
                          else t.users[i])
      && r.invitations == t.invitations && r.availabilities == t.availabilities
  {
    var data := BookingData(form, start);
    var r := CreateBooking(t, form, Some(start), integrationsOk).tables;
    assert r == IncrementUsage(InsertBooking(t, data), form["apiKey"]) by {
      ContractorFound(t, Field(form, "userId"));
      AcceptedOutcome(t, form, start, integrationsOk);
    }
    InsertAndCount(t, data, form["apiKey"]);
    BookingRow(form, start);
  }

  /** Inserting a row and counting a use of `apiKey` append the row with
      the next id and add one use to every holder of the key. */
  lemma InsertAndCount(t: Tables, data: Booking, apiKey: string)
    ensures var r := IncrementUsage(InsertBooking(t, data), apiKey);
      && |r.bookings| == |t.bookings| + 1
      && r.bookings[..|t.bookings|] == t.bookings
      && r.bookings[|t.bookings|] == data.(id := t.nextId)
      && |r.users| == |t.users|
      && (forall i :: 0 <= i < |t.users| ==>
            r.users[i] == if t.users[i].apiKey == Some(apiKey)
                          then t.users[i].(usageCount := t.users[i].usageCount + 1)
                          else t.users[i])
      && r.invitations == t.invitations && r.availabilities == t.availabilities
  {
    var r := IncrementUsage(InsertBooking(t, data), apiKey);
    assert r.bookings == t.bookings + [data.(id := t.nextId)];
  }

  /** `value` is the form's field `name` when that is non-empty, and
      `default` when it is empty or missing. */
  predicate Defaulted(form: Form, name: string, value: string, default: string) {
    && (Field(form, name) != "" ==> value == form[name])
    && (Field(form, name) == "" ==> value == default)
  }

  /** The row built from a form: for `userId`, from `start` for the
      duration, and each customer field as sent or else its fixed
      default. */
  lemma BookingRow(form: Form, start: int)
    ensures var b := BookingData(form, start);
      && b.contractorId == Field(form, "userId") && b.teamOwnerId == Field(form, "userId")
      && b.startDateTime == start
      && b.endDateTime - b.startDateTime == Duration(form) * MinuteMs
      && Defaulted(form, "customerFirstName", b.customerFirstName, "John")
      && Defaulted(form, "customerLastName", b.customerLastName, "Doe")
      && Defaulted(form, "customerEmail", b.customerEmail, "john.doe@example.com")
      && Defaulted(form, "city", b.city, "Chicago")
      && Defaulted(form, "state", b.state, "IL")
      && Defaulted(form, "address", b.address, "123 Main St")
      && Defaulted(form, "description", b.description, "Booking notes")
  {
  }

  /** The booking is reported created exactly when the contractor exists
      and the integrations succeed. A booking is written, with its counted
      use, exactly when the contractor exists; a failing integration then
      answers 500 but the booking and the counted use stay. */
  lemma CreatedIff(t: Tables, form: Form, start: int, integrationsOk: bool)
    requires Field(form, "apiKey") != "" && ValidateApiKey(t.users, form["apiKey"])
    ensures var o := CreateBooking(t, form, Some(start), integrationsOk);
      var known := exists i :: 0 <= i < |t.users| && t.users[i].id == Field(form, "userId");
      && (o.response.Created? <==> integrationsOk && known)
      && (known ==> |o.tables.bookings| == |t.bookings| + 1)
      && (!known ==> o == Outcome(t, Failed(500, "Failed to create booking")))
  {
    ContractorFound(t, Field(form, "userId"));
    AcceptedOutcome(t, form, start, integrationsOk);
  }

  /** The contractor lookup finds a row exactly when some user has that id. */
  lemma ContractorFound(t: Tables, userId: string)
    ensures UserById(t.users, userId).Some? <==> exists i :: 0 <= i < |t.users| && t.users[i].id == userId
  {
    assert UserById(t.users, userId).None? <==> forall i :: 0 <= i < |t.users| ==> t.users[i].id != userId;
  }

  /** What an accepted request returns, once the key checks have passed. */
  lemma AcceptedOutcome(t: Tables, form: Form, start: int, integrationsOk: bool)
    requires Field(form, "apiKey") != "" && ValidateApiKey(t.users, form["apiKey"])
    ensures var t2 := IncrementUsage(InsertBooking(t, BookingData(form, start)), form["apiKey"]);
      CreateBooking(t, form, Some(start), integrationsOk)
      == if UserById(t.users, Field(form, "userId")).None? then Outcome(t, Failed(500, "Failed to create booking"))
         else if !integrationsOk then Outcome(t2, Failed(500, "Failed to create booking"))
         else Outcome(t2, Created(BookingData(form, start).(id := t.nextId)))
  {
  }

  /** A duration field holding the decimal text of a non-zero number of
      minutes gives that duration; an absent or unreadable one gives 60. */
  lemma DurationOfText(form: Form, minutes: int)
    ensures minutes != 0 && Field(form, "duration") == IntString(minutes) ==> Duration(form) == minutes
    ensures "duration" !in form ==> Duration(form) == DefaultDurationMinutes
    ensures Field(form, "duration") == IntString(0) ==> Duration(form) == DefaultDurationMinutes
  {
    ParseIntString(minutes);
    ParseIntString(0);
  }

  /** A basic-tier key with 49 recorded uses books once more for its
      holder and is then refused, with the database left as the accepted call made it. */
  lemma BasicKeyExhausted(t: Tables, form: Form, start: int, u: User)
    requires t.users == [u] && u.tier == "basic" && u.usageCount == 49
    requires Field(form, "userId") == u.id
    requires Field(form, "apiKey") != "" && u.apiKey == Some(form["apiKey"])
    ensures var first := CreateBooking(t, form, Some(start), true);
      && first.tables.users == [u.(usageCount := 50)]
      && CreateBooking(first.tables, form, Some(start), true) == Outcome(first.tables, Failed(403, "Invalid API key or usage limit exceeded"))
  {
    var key := form["apiKey"];
    var first := CreateBooking(t, form, Some(start), true);
    assert ValidateApiKey(t.users, key) by {
      assert t.users[0] == u;
    }
    assert first.tables == IncrementUsage(InsertBooking(t, BookingData(form, start)), key) by {
      AcceptedOutcome(t, form, start, true);
    }
    assert first.tables.users == [u.(usageCount := 50)] by {
      var users := first.tables.users;
      assert |users| == 1 && users[0] == AddUse(u);
    }
    BasicBoundary(u);
    assert !ValidateApiKey(first.tables.users, key);
  }
}
