/** The state of the embeddable booking widget of
    app/components/EmbeddableBookingWidget/EmbeddableBookingWidget.tsx: the
    selected date and time, the customer's e-mail (kept only when it passes
    the widget's pattern) and description, and the forms it posts to
    /api/create-booking. */
module BookingWidget {
  import opened Wrappers
  import opened JsText
  import opened Clock
  import CreateBookingRoute

  // ---- The e-mail pattern /^[^\s@]+@[^\s@]+\.[^\s@]+$/ ----

  /** A character of the class `[^\s@]`. */
  predicate PieceChar(c: char) {
    !IsWhitespace(c) && c != '@'
  }

  /** A string matching `[^\s@]+`. */
  predicate Piece(s: string) {
    |s| > 0 && forall k :: 0 <= k < |s| ==> PieceChar(s[k])
  }

  /** The language of the pattern: a piece, '@', a piece, '.', a piece. */
  ghost predicate PatternMatches(s: string) {
    exists a, b, c :: Piece(a) && Piece(b) && Piece(c) && s == a + "@" + b + "." + c
  }

  /** The test the handler runs, stated character by character: no
      whitespace, exactly one '@' and not first, and a '.' after the '@'
      that is neither the first nor the last character after it. */
  predicate IsEmail(s: string) {
    exists i, j :: 0 < i && i + 1 < j < |s| - 1 && s[i] == '@' && s[j] == '.'
      && forall k :: 0 <= k < |s| ==> !IsWhitespace(s[k]) && (s[k] == '@' ==> k == i)
  }

  /** The character-level test accepts exactly the pattern's language. */
  lemma IsEmailIff(s: string)
    ensures IsEmail(s) <==> PatternMatches(s)
  {
    if IsEmail(s) {
      var i, j :| 0 < i && i + 1 < j < |s| - 1 && s[i] == '@' && s[j] == '.'
        && forall k :: 0 <= k < |s| ==> !IsWhitespace(s[k]) && (s[k] == '@' ==> k == i);
      EmailSplits(s, i, j);
    }
    if PatternMatches(s) {
      var a, b, c :| Piece(a) && Piece(b) && Piece(c) && s == a + "@" + b + "." + c;
      SplitIsEmail(a, b, c);
    }
  }

  lemma EmailSplits(s: string, i: int, j: int)
    requires 0 < i && i + 1 < j < |s| - 1 && s[i] == '@' && s[j] == '.'
    requires forall k :: 0 <= k < |s| ==> !IsWhitespace(s[k]) && (s[k] == '@' ==> k == i)
    ensures PatternMatches(s)
  {
    var a, b, c := s[..i], s[i + 1..j], s[j + 1..];
    assert Piece(a) by {
      assert forall k :: 0 <= k < |a| ==> a[k] == s[k];
    }
    assert Piece(b) by {
      assert forall k :: 0 <= k < |b| ==> b[k] == s[i + 1 + k];
    }
    assert Piece(c) by {
      assert forall k :: 0 <= k < |c| ==> c[k] == s[j + 1 + k];
    }
    assert s == a + "@" + b + "." + c;
  }

  lemma SplitIsEmail(a: string, b: string, c: string)
    requires Piece(a) && Piece(b) && Piece(c)
    ensures IsEmail(a + "@" + b + "." + c)
  {
    var s := a + "@" + b + "." + c;
    var i, j := |a|, |a| + 1 + |b|;
    forall k | 0 <= k < |s|
      ensures !IsWhitespace(s[k]) && (s[k] == '@' ==> k == i)
    {
      if k < i {
        assert s[k] == a[k];
      } else if i < k < j {
        assert s[k] == b[k - i - 1];
      } else if j < k {
        assert s[k] == c[k - j - 1];
      }
    }
    assert s[i] == '@' && s[j] == '.';
  }

  /** A few addresses the pattern accepts and rejects. */
  lemma EmailExamples()
    ensures IsEmail("a@b.c")
    ensures IsEmail("a@b..c")
    ensures !IsEmail("a@b")
    ensures !IsEmail("@b.c")
    ensures !IsEmail("a@.c")
    ensures !IsEmail("a@b.")
    ensures !IsEmail("a@@b.c")
    ensures !IsEmail("a b@c.d")
  {
    assert "a@b.c"[1] == '@' && "a@b.c"[3] == '.';
    assert "a@b..c"[1] == '@' && "a@b..c"[3] == '.';
    assert IsWhitespace("a b@c.d"[1]);
    assert "a@@b.c"[1] == '@' && "a@@b.c"[2] == '@';
  }

  // ---- The widget ----

  /** The form `handleSubmit` posts. `customerEmail!` of a `null` e-mail
      is appended as the text "null". */
  function Payload(apiKey: string, userId: string, date: string, time: string,
                   customerEmail: Option<string>, description: Option<string>): (f: CreateBookingRoute.Form)
    ensures f.Keys == {"apiKey", "userId", "date", "time", "duration", "customerEmail", "description"}
  {
    map["apiKey" := apiKey, "userId" := userId, "date" := date, "time" := time, "duration" := "60",
        "customerEmail" := customerEmail.GetOr("null"),
        "description" := description.GetOr("Booking notes")]
  }

  /** What every form the widget posts has in common. */
  predicate PostedForm(f: CreateBookingRoute.Form, apiKey: string, userId: string) {
    && f.Keys == {"apiKey", "userId", "date", "time", "duration", "customerEmail", "description"}
    && f["duration"] == "60" && f["apiKey"] == apiKey && f["userId"] == userId
    && (f["customerEmail"] == "null" || IsEmail(f["customerEmail"]))
  }

  class EmbeddableBookingWidget {
    const userId: string
    const apiKey: string
    /** The selected day, as the `YYYY-MM-DD` text the payload carries. */
    var selectedDate: Option<string>
    var selectedTime: Option<string>
    var customerEmail: Option<string>
    var description: Option<string>
    /** Every form posted so far, oldest first. */
    var submitted: seq<CreateBookingRoute.Form>

    /** The e-mail state only ever holds an accepted address, and every
        posted form asks for a 60-minute booking for this widget's user with
        this widget's key. */
    ghost predicate Valid()
      reads this
    {
      && (customerEmail.Some? ==> IsEmail(customerEmail.value))
      && forall i :: 0 <= i < |submitted| ==> PostedForm(submitted[i], apiKey, userId)
    }

    constructor (userId: string, apiKey: string)
      ensures Valid()
      ensures this.userId == userId && this.apiKey == apiKey
      ensures selectedDate == None && selectedTime == None && customerEmail == None && description == None
      ensures submitted == []
    {
      this.userId := userId;
      this.apiKey := apiKey;
      selectedDate, selectedTime, customerEmail, description := None, None, None, None;
      submitted := [];
    }

    /** Whether the submit button is rendered. */
    predicate ShowsSubmitButton()
      reads this
    {
      selectedDate.Some? && Truthy(selectedTime) && Truthy(customerEmail)
    }

    /** Choosing a date always clears the chosen time. */
    method HandleDateSelect(date: string)
      requires Valid()
      modifies this
      ensures Valid()
      ensures selectedDate == Some(date) && selectedTime == None
      ensures customerEmail == old(customerEmail) && description == old(description) && submitted == old(submitted)
    {
      selectedDate := Some(date);
      selectedTime := None;
    }

    method HandleTimeSelect(time: string)
      requires Valid()
      modifies this
      ensures Valid()
      ensures selectedTime == Some(time)
      ensures selectedDate == old(selectedDate) && customerEmail == old(customerEmail)
      ensures description == old(description) && submitted == old(submitted)
    {
      selectedTime := Some(time);
    }

    /** Keeps the typed value when it matches the pattern, else forgets any
        earlier address. */
    method HandleCustomerEmailChange(value: string)
      requires Valid()
      modifies this
      ensures Valid()
      ensures customerEmail == if IsEmail(value) then Some(value) else None
      ensures selectedDate == old(selectedDate) && selectedTime == old(selectedTime)
      ensures description == old(description) && submitted == old(submitted)
    {
      if IsEmail(value) {
        customerEmail := Some(value);
      } else {
        customerEmail := None;
      }
    }

    method HandleDescriptionChange(value: string)
      requires Valid()
      modifies this
      ensures Valid()
      ensures description == Some(value)
      ensures selectedDate == old(selectedDate) && selectedTime == old(selectedTime)
      ensures customerEmail == old(customerEmail) && submitted == old(submitted)
    {
      description := Some(value);
    }

    /** Posts one form when a date and a time are chosen, and nothing
        otherwise; the selection state is left as it was. */
    method HandleSubmit()
      requires Valid()
      modifies this
      ensures Valid()
      ensures selectedDate == old(selectedDate) && selectedTime == old(selectedTime)
      ensures customerEmail == old(customerEmail) && description == old(description)
      ensures submitted == if selectedDate.Some? && Truthy(selectedTime)
        then old(submitted) + [Payload(apiKey, userId, selectedDate.value, selectedTime.value, customerEmail, description)]
        else old(submitted)
    {
      if selectedDate.Some? && Truthy(selectedTime) {
        var formData := Payload(apiKey, userId, selectedDate.value, selectedTime.value, customerEmail, description);
        submitted := submitted + [formData];
      }
    }
  }

  /** The endpoint reads a widget's form as a 60-minute booking with a
      non-empty description; an address the pattern accepts is stored as
      typed, and a missing one as the text "null". */
  lemma PayloadAsBooking(apiKey: string, userId: string, date: string, time: string,
                         customerEmail: Option<string>, description: Option<string>, start: int)
    ensures var f := Payload(apiKey, userId, date, time, customerEmail, description);
      var b := CreateBookingRoute.BookingData(f, start);
      && CreateBookingRoute.Duration(f) == 60
      && b.description != ""
      && b.contractorId == userId
      && (customerEmail.Some? && IsEmail(customerEmail.value) ==> b.customerEmail == customerEmail.value)
      && (customerEmail.None? ==> b.customerEmail == "null")
  {
    var f := Payload(apiKey, userId, date, time, customerEmail, description);
    assert IntString(60) == "60" by {
      assert DecimalString(6) == "6";
      assert DecimalString(60) == DecimalString(6) + [DigitChar(0)];
    }
    CreateBookingRoute.DurationOfText(f, 60);
  }

  /** When the button shows, the form it posts carries an accepted
      address, never "null". */
  lemma ButtonPostsAcceptedAddress(w: EmbeddableBookingWidget)
    requires w.Valid() && w.ShowsSubmitButton()
    ensures IsEmail(Payload(w.apiKey, w.userId, w.selectedDate.value, w.selectedTime.value,
                            w.customerEmail, w.description)["customerEmail"])
  {
  }
}
