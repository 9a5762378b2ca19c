/** `/api/calendar` (src/app/api/calendar/route.js): POST checks title and
    date, defaults the colour to "#3b82f6" and appends one event attributed to
    the caller; GET lists events, narrowed to a month (`month=YYYY-MM`) or
    else a year (`year=YYYY`) when one is given, earliest date first. */
module CalendarApi {
  import opened Common
  import opened Lists
  import opened Sorting
  import opened Text
  import opened Dates
  import opened ApiErrors
  import opened Auth
  import opened Store

  /** A `date` property of the body: absent, `null`, or a string together with
      the date `new Date(date)` reads from it (None when it is an invalid date). */
  datatype DateField = DateUndefined | DateNull | DateText(text: string, parsed: Option<CivilDate>) {
    predicate Truthy() {
      DateText? && text != ""
    }
  }

  /** The destructured body `{ title, description, date, color = '#3b82f6' }`. */
  datatype EventRequest = EventRequest(title: Field, description: Field, date: DateField, color: Field)

  datatype EventDraft = EventDraft(title: string, description: Option<string>, date: CivilDate, color: Option<string>)

  const DefaultColor: string := "#3b82f6"

  const MissingFields := Rejection(400, "Title and date are required")

  /** What the store raises when handed an invalid `Date`. */
  const InvalidDate: Thrown := OtherError("Provided Date object is invalid", None)

  /** The outcome of POST's checks: a rejection, a thrown store error, or the
      columns to write. */
  datatype Checked = Rejected(rejection: Rejection) | Raised(error: Thrown) | Accepted(draft: EventDraft)

  /** The validation chain of POST: title and date must be truthy; an
      unreadable date reaches the store as an invalid `Date`, which throws. */
  function CheckEvent(req: EventRequest): (r: Checked)
    ensures r.Rejected? <==> !(req.title.Truthy() && req.date.Truthy())
    ensures r.Rejected? ==> r.rejection == MissingFields
    ensures r.Raised? <==> req.title.Truthy() && req.date.Truthy() && req.date.parsed.None?
    ensures r.Raised? ==> r.error == InvalidDate
    ensures r.Accepted? ==>
              && r.draft.title == req.title.s && r.draft.description == req.description.Stored()
              && r.draft.date == req.date.parsed.value
              && r.draft.color == req.color.WithDefault(DefaultColor).Stored()
              && (req.color.Undefined? ==> r.draft.color == Some(DefaultColor))
  {
    if !(req.title.Truthy() && req.date.Truthy()) then Rejected(MissingFields)
    else if req.date.parsed.None? then Raised(InvalidDate)
    else Accepted(EventDraft(req.title.s, req.description.Stored(), req.date.parsed.value,
                             req.color.WithDefault(DefaultColor).Stored()))
  }

  function NewEvent(d: EventDraft, id: Id, userId: Id, now: int): Event {
    Event(id, d.title, d.description, d.date, d.color, userId, now)
  }

  /** POST /api/calendar: a rejected or failing request writes nothing; an
      accepted one appends exactly one event whose creator is the caller and
      answers 201. */
  method Post(db: Database, session: Option<User>, req: EventRequest, newId: Id, now: int) returns (r: Response<Event>)
    requires UniqueIds(db.events, EventKey)
    modifies db`events
    ensures UniqueIds(db.events, EventKey)
    ensures session.None? ==> r == HandleApiError(RequireAuth(session).error)
    ensures session.Some? && CheckEvent(req).Rejected? ==> r == Reject(CheckEvent(req).rejection)
    ensures session.Some? && CheckEvent(req).Raised? ==> r == HandleApiError(InvalidDate) && r.status == 500
    ensures (session.Some? && CheckEvent(req).Accepted? && newId in Ids(old(db.events), EventKey))
              ==> r == HandleApiError(DuplicateKey)
    ensures r.status != 201 ==> db.events == old(db.events)
    ensures r.status == 201 <==>
              session.Some? && CheckEvent(req).Accepted? && newId !in Ids(old(db.events), EventKey)
    ensures r.status == 201 ==>
              var e := NewEvent(CheckEvent(req).draft, newId, session.value.id, now);
              db.events == old(db.events) + [e] && r.body == DataBody(e)
  {
    var auth := RequireAuth(session);
    if auth.Failure? {
      return HandleApiError(auth.error);
    }
    var check := CheckEvent(req);
    if check.Rejected? {
      return Reject(check.rejection);
    }
    if check.Raised? {
      return HandleApiError(check.error);
    }
    if newId in Ids(db.events, EventKey) {
      return HandleApiError(DuplicateKey);
    }
    var e := NewEvent(check.draft, newId, auth.value.id, now);
    AppendUnique(db.events, e, EventKey);
    db.events := db.events + [e];
    r := SuccessResponse(e, 201);
  }

  /** The `where` of GET: no constraint, or a closed range of instants. */
  datatype Range = Everything | Between(lo: DateTime, hi: DateTime)

  /** `const [yearPart, monthPart] = month.split('-')`: the field before the
      first dash, and the field after it (None, i.e. `undefined`, when there
      is no dash). */
  function YearPart(month: string): string {
    FirstField(month, '-')
  }

  function MonthPart(month: string): Option<string> {
    var rest := AfterFirst(month, '-');
    if rest.None? then None else Some(FirstField(rest.value, '-'))
  }

  /** `parseInt(monthPart)`, where `parseInt(undefined)` is `NaN`. */
  function ParseMonthPart(month: string): Option<int> {
    var p := MonthPart(month);
    if p.None? then None else ParseInt(p.value)
  }

  /** The range for `month=Y-M`: `new Date(Y, M - 1, 1)` to `new Date(Y, M, 0, 23, 59, 59)`,
      that is, from midnight on the first to the last second of the last day
      of the month `new Date(Y, M - 1, 1)` falls in. */
  function MonthRange(y: int, m: int): (r: Range)
    ensures var ym := MonthOf(y, m - 1);
      r == Between(MonthStart(ym.0, ym.1), MonthEnd(ym.0, ym.1))
  {
    DayZeroIsLastDayOfPreviousMonth(y, m);
    Between(MakeDate(y, m - 1, 1), AtTime(MakeDate(y, m, 0), 23, 59, 59))
  }

  /** The range for `year=Y`: `new Date(Y, 0, 1)` to `new Date(Y, 11, 31, 23, 59, 59)`,
      that is, from midnight on 1 January to the last second of 31 December
      of year Y (19YY for Y below 100). */
  function YearRange(y: int): (r: Range)
    ensures r == Between(MonthStart(JsYear(y), 1), MonthEnd(JsYear(y), 12))
  {
    Between(MakeDate(y, 0, 1), AtTime(MakeDate(y, 11, 31), 23, 59, 59))
  }

  /** The GET filter. A truthy `month` wins over `year`; a part that does not
      parse makes an invalid `Date`, which the store refuses (a throw). */
  function Where(month: Field, year: Field): (r: Result<Range, Thrown>)
    ensures r.Failure? ==> r.error == InvalidDate
    ensures month.Truthy() ==>
              (r.Success? <==> ParseInt(YearPart(month.s)).Some? && ParseMonthPart(month.s).Some?)
    ensures month.Truthy() && r.Success? ==>
              r.value == MonthRange(ParseInt(YearPart(month.s)).value, ParseMonthPart(month.s).value)
    ensures !month.Truthy() && year.Truthy() ==> (r.Success? <==> ParseInt(year.s).Some?)
    ensures !month.Truthy() && year.Truthy() && r.Success? ==> r.value == YearRange(ParseInt(year.s).value)
    ensures !month.Truthy() && !year.Truthy() ==> r == Success(Everything)
  {
    if month.Truthy() then
      var y, m := ParseInt(YearPart(month.s)), ParseMonthPart(month.s);
      if y.None? || m.None? then Failure(InvalidDate) else Success(MonthRange(y.value, m.value))
    else if year.Truthy() then
      var y := ParseInt(year.s);
      if y.None? then Failure(InvalidDate) else Success(YearRange(y.value))
    else Success(Everything)
  }

  predicate InRange(e: Event, range: Range) {
    range.Everything? || Ordinal(range.lo) <= Ordinal(e.date) <= Ordinal(range.hi)
  }

  function DateOrdinal(e: Event): int { Ordinal(e.date) }

  /** GET /api/calendar?month|year: the events in range, earliest date first. */
  function Get(session: Option<User>, rows: seq<Event>, month: Field, year: Field): (r: Response<seq<Event>>)
    ensures session.None? ==> r == HandleApiError(RequireAuth(session).error)
    ensures session.Some? && Where(month, year).Failure? ==> r == HandleApiError(InvalidDate) && r.status == 500
    ensures session.Some? && Where(month, year).Success? ==> r.status == 200 && r.body.DataBody?
    ensures session.Some? && Where(month, year).Success? ==>
              forall e :: multiset(r.body.data)[e] == if InRange(e, Where(month, year).value) then multiset(rows)[e] else 0
    ensures session.Some? && Where(month, year).Success? ==>
              forall i, j :: 0 <= i < j < |r.body.data| ==> Ordinal(r.body.data[i].date) <= Ordinal(r.body.data[j].date)
  {
    var auth := RequireAuth(session);
    if auth.Failure? then HandleApiError(auth.error)
    else
      var range := Where(month, year);
      if range.Failure? then HandleApiError(range.error)
      else SuccessResponse(SelectAsc(rows, e => InRange(e, range.value), DateOrdinal))
  }

  /** The month range holds exactly the events of the month `new Date(Y, M - 1, 1)`
      falls in: M may run past 12 or below 1, and a year below 100 means 19YY. */
  lemma MonthRangeSelectsMonth(e: Event, y: int, m: int)
    ensures var ym := MonthOf(y, m - 1);
      InRange(e, MonthRange(y, m)) <==> e.date.year == ym.0 && e.date.month == ym.1
  {
    var ym := MonthOf(y, m - 1);
    MonthRangeIsMonth(e.date, ym.0, ym.1);
  }

  /** The year range holds exactly the events of year Y (19YY for Y below 100). */
  lemma YearRangeSelectsYear(e: Event, y: int)
    ensures InRange(e, YearRange(y)) <==> e.date.year == JsYear(y)
  {
    YearRangeIsYear(e.date, JsYear(y));
  }

  /** A truthy `month` makes `year` irrelevant. */
  lemma MonthWins(month: Field, y1: Field, y2: Field)
    requires month.Truthy()
    ensures Where(month, y1) == Where(month, y2)
  {
  }

  /** A month query with an empty second field ("2024--5") parses its month as
      `NaN`, so the request fails instead of falling back to the year. */
  lemma EmptyMonthFieldFails(yearPart: string, tail: string, year: Field)
    requires '-' !in yearPart
    ensures Where(Str(yearPart + ['-'] + ['-'] + tail), year) == Failure(InvalidDate)
  {
    var rest := ['-'] + tail;
    var s := yearPart + ['-'] + rest;
    assert s == yearPart + ['-'] + ['-'] + tail;
    FirstFieldOfJoin(yearPart, '-', rest);
    assert AfterFirst(s, '-').value == rest;
    assert FirstField(rest, '-') == "";
    assert MonthPart(s) == Some("");
    ParseIntEmpty();
    assert ParseMonthPart(s) == None;
  }
}
