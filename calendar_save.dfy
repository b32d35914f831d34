/**
 * The calendar save route: it checks the caller and the request, turns the task's date, time,
 * duration and all-day span into the start and end of a calendar event with a colour, and hands
 * that event to the calendar. The calendar call itself is outside the model: whether it succeeds
 * is a parameter.
 */
module CalendarSave {
  import opened Wrappers
  import opened Digits
  import opened CivilTime

  /** `CATEGORY_COLOR_MAP`. */
  const CategoryColors: map<string, string> :=
    map["外出" := "11", "来客" := "5", "PB" := "10", "WEB" := "3", "重要" := "9", "NKE" := "8"]

  /** `CATEGORY_COLOR_MAP[category] || '1'`. */
  function ColorId(category: string): (c: string)
    ensures category in CategoryColors ==> c == CategoryColors[category]
    ensures c == "1" <==> category !in CategoryColors
  {
    if category in CategoryColors then CategoryColors[category] else "1"
  }

  /** The prefix of `s` before the first `sep`, all of `s` when there is none: the first field of `s.split(sep)`. */
  function Before(s: string, sep: char): (r: string)
    ensures sep !in r
  {
    if s == [] || s[0] == sep then [] else [s[0]] + Before(s[1..], sep)
  }

  /** What follows the first `sep` in `s`. */
  function After(s: string, sep: char): (r: string)
    requires sep in s
    ensures |r| < |s|
  {
    if s[0] == sep then s[1..] else After(s[1..], sep)
  }

  lemma {:induction false} SplitAtFirst(a: string, sep: char, b: string)
    requires sep !in a
    ensures Before(a + [sep] + b, sep) == a && After(a + [sep] + b, sep) == b
  {
    if a != [] {
      assert (a + [sep] + b)[1..] == a[1..] + [sep] + b;
      SplitAtFirst(a[1..], sep, b);
    } else {
      assert a + [sep] + b == [sep] + b;
    }
  }

  lemma {:induction false} BeforeWithoutSeparator(s: string, sep: char)
    requires sep !in s
    ensures Before(s, sep) == s
  {
    if s != [] {
      BeforeWithoutSeparator(s[1..], sep);
    }
  }

  /** `Number(part)` for the parts a duration is made of: digits read as their value, `""` as 0, anything else NaN. */
  function NumberOf(part: string): (r: Option<nat>)
    ensures r.Some? <==> AllDigits(part)
    ensures r.Some? ==> r.value == DigitsValue(part)
  {
    if AllDigits(part) then Some(DigitsValue(part)) else None
  }

  /** One hour in milliseconds, the duration of a timed event whose duration is missing or has no colon. */
  const OneHour := 60 * 60 * 1000

  /**
   * `parseDuration`: milliseconds of `H:MM` from the first two colon-separated fields;
   * one hour when the text is missing, empty or has no colon; `None` stands for NaN.
   */
  function ParseDuration(text: Option<string>): (ms: Option<int>)
    ensures text.None? || ':' !in text.value ==> ms == Some(OneHour)
    ensures ms.Some? ==> ms.value >= 0
  {
    if text.None? || text.value == "" || ':' !in text.value then Some(OneHour)
    else FieldsDuration(Before(text.value, ':'), Before(After(text.value, ':'), ':'))
  }

  /** `(h * 60 + m) * 60 * 1000` for the first two fields, NaN unless both are numbers. */
  function FieldsDuration(hours: string, minutes: string): (ms: Option<int>)
    ensures ms.Some? ==> ms.value >= 0
  {
    var h, m := NumberOf(hours), NumberOf(minutes);
    if h.Some? && m.Some? then Some((h.value * 60 + m.value) * 60000) else None
  }

  /** A parsed duration is a whole number of minutes, so the event's end falls on a whole minute after its start. */
  lemma DurationWholeMinutes(text: Option<string>)
    requires ParseDuration(text).Some?
    ensures ParseDuration(text).value % 60000 == 0
  {
    if text.Some? && text.value != "" && ':' in text.value {
      var hours := Before(text.value, ':');
      var minutes := Before(After(text.value, ':'), ':');
      var k := NumberOf(hours).value * 60 + NumberOf(minutes).value;
      assert FieldsDuration(hours, minutes).value == k * 60000;
    }
  }

  lemma DigitsHaveNoColon(s: string)
    requires AllDigits(s)
    ensures ':' !in s
  {
  }

  /** With digits before the first colon, the duration is read from those digits and the field after them. */
  lemma FirstTwoFields(h: string, m: string, tail: string)
    requires AllDigits(h) && Before(tail, ':') == m
    ensures ParseDuration(Some(h + [':'] + tail)) == FieldsDuration(h, m)
  {
    var text := h + [':'] + tail;
    DigitsHaveNoColon(h);
    SplitAtFirst(h, ':', tail);
    assert text[|h|] == ':';
  }

  lemma FieldsOfDigits(h: string, m: string)
    requires AllDigits(h) && AllDigits(m)
    ensures FieldsDuration(h, m) == Some((DigitsValue(h) * 60 + DigitsValue(m)) * 60000)
  {
  }

  /** `H:M`, with or without further `:`-separated fields, lasts `H` hours and `M` minutes. */
  lemma DurationOfDigits(h: string, m: string, rest: Option<string>)
    requires AllDigits(h) && AllDigits(m)
    ensures var text := h + ":" + m + (if rest.Some? then ":" + rest.value else "");
      ParseDuration(Some(text)) == Some((DigitsValue(h) * 60 + DigitsValue(m)) * 60000)
  {
    var tail := m + (if rest.Some? then ":" + rest.value else "");
    var text := h + ":" + m + (if rest.Some? then ":" + rest.value else "");
    assert text == h + [':'] + tail;
    DigitsHaveNoColon(m);
    if rest.Some? {
      assert tail == m + [':'] + rest.value;
      SplitAtFirst(m, ':', rest.value);
    } else {
      assert tail == m;
      BeforeWithoutSeparator(m, ':');
    }
    FirstTwoFields(h, m, tail);
    FieldsOfDigits(h, m);
  }

  /** The JSON body the route receives, after `JSON.parse`; missing strings are `""`. */
  datatype Fields = Fields(
    task: string,
    startDate: string,
    duration: Option<string>,
    category: string,
    isAllDay: bool,
    days: Option<int>)

  datatype Body = Unparsable | Json(fields: Fields)

  /** A JavaScript `Date`: a local time, or the Invalid Date. */
  datatype Moment = Invalid | At(time: LocalDateTime)

  /** `Number(days) || 1`: the span of an all-day event, one day when missing or zero. */
  function SpanDays(days: Option<int>): (n: int)
    ensures n != 0
    ensures days.Some? && days.value != 0 ==> n == days.value
    ensures !(days.Some? && days.value != 0) ==> n == 1
  {
    if days.Some? && days.value != 0 then days.value else 1
  }

  /** The `start` the route computes: midnight of the date for an all-day event, the given local time otherwise. */
  function Start(f: Fields): (m: Moment)
    ensures m.At? ==> ValidDateTime(m.time)
    ensures f.isAllDay ==>
      m == if ParseDate(f.startDate).Some? then At(LocalDateTime(ParseDate(f.startDate).value, 0, 0, 0)) else Invalid
  {
    MidnightOfDate(f.startDate);
    var parsed := ParseLocal(if f.isAllDay then f.startDate + "T00:00:00" else f.startDate);
    if parsed.Some? then At(parsed.value) else Invalid
  }

  /** The `end` the route computes: `SpanDays` calendar days later for an all-day event, the parsed duration later otherwise. */
  function End(f: Fields): (e: Moment)
    ensures Start(f).At? && f.isAllDay ==>
      && e.At? && ValidDateTime(e.time)
      && DayNumber(e.time.date) == DayNumber(Start(f).time.date) + SpanDays(f.days)
      && e.time == Start(f).time.(date := e.time.date)
    ensures Start(f).At? && !f.isAllDay && ParseDuration(f.duration).Some? ==>
      && e.At? && ValidDateTime(e.time)
      && Instant(e.time) == Instant(Start(f).time) + ParseDuration(f.duration).value / 1000
    ensures Start(f).Invalid? || (!f.isAllDay && ParseDuration(f.duration).None?) ==> e.Invalid?
  {
    match Start(f)
    case Invalid => Invalid
    case At(t) =>
      if f.isAllDay then At(t.(date := AddDays(t.date, SpanDays(f.days))))
      else
        var ms := ParseDuration(f.duration);
        if ms.Some? then At(AddSeconds(t, ms.value / 1000)) else Invalid
  }

  datatype Boundary = DateOnly(date: string) | DateTime(dateTime: string, timeZone: string)

  datatype Event = Event(summary: string, colorId: string, start: Boundary, end: Boundary)

  /** `formatLocalDateTime` of a `Date`; the Invalid Date prints `NaN` in every field. */
  function MomentText(m: Moment): (s: string)
    ensures m.Invalid? ==> s == "NaN-NaN-NaNTNaN:NaN:00" && ParseLocal(s).None?
    ensures m.At? && ValidDateTime(m.time) && 1000 <= m.time.date.year <= 9999 ==>
      ParseLocal(s) == Some(m.time.(second := 0))
  {
    match m
    case Invalid =>
      assert ParseDate("NaN-NaN-Na").None?;
      "NaN-NaN-NaNTNaN:NaN:00"
    case At(t) =>
      if !ValidDateTime(t) then "NaN-NaN-NaNTNaN:NaN:00"
      else if 1000 <= t.date.year <= 9999 then
        FormatLocalDateTimeRoundTrip(t);
        FormatLocalDateTime(t)
      else FormatLocalDateTime(t)
  }

  /**
   * The event the route builds. For an all-day event both ends are bare dates, and an Invalid Date
   * start makes `toISOString` throw, so there is no event; a timed event always has one, both ends in Tokyo time.
   */
  function BuildEvent(f: Fields): (r: Option<Event>)
    ensures r.None? <==> f.isAllDay && Start(f).Invalid?
    ensures r.Some? ==> r.value.summary == f.task && r.value.colorId == ColorId(f.category)
    ensures r.Some? && f.isAllDay ==> r.value.start.DateOnly? && r.value.end.DateOnly?
    ensures r.Some? && !f.isAllDay ==>
      && r.value.start.DateTime? && r.value.end.DateTime?
      && r.value.start.timeZone == "Asia/Tokyo" && r.value.end.timeZone == "Asia/Tokyo"
  {
    var start, end := Start(f), End(f);
    if f.isAllDay then
      match (start, end)
      case (At(s), At(e)) =>
        Some(Event(f.task, ColorId(f.category), DateOnly(FormatDate(s.date)), DateOnly(FormatDate(e.date))))
      case _ => None
    else
      Some(Event(f.task, ColorId(f.category),
        DateTime(MomentText(start), "Asia/Tokyo"), DateTime(MomentText(end), "Asia/Tokyo")))
  }

  datatype Payload = Error(error: string) | Message(message: string) | Unhandled

  datatype Response = Response(status: int, payload: Payload)

  /** What one POST does: the event handed to the calendar, if any, and the response. */
  datatype Exchange = Exchange(inserted: Option<Event>, response: Response)

  /**
   * `POST`: 401 without a token, then 400 for a body that is not JSON, then 400 when the task,
   * start date or category is missing; otherwise the event goes to the calendar, and the response
   * reports whether the calendar took it. A throw while building the event is a 500 of the framework.
   */
  function Post(authorized: bool, body: Body, calendarAccepts: bool): (r: Exchange)
    ensures r.response.status == 401 <==> !authorized
    ensures r.response == Response(400, Error("無効なJSON形式")) <==> authorized && body.Unparsable?
    ensures r.response == Response(400, Error("パラメータ不足")) <==>
      authorized && body.Json? && (body.fields.task == "" || body.fields.startDate == "" || body.fields.category == "")
    ensures r.response.status in {400, 401} ==> r.inserted.None?
    ensures r.inserted.Some? ==> r.response.status in {200, 500}
    ensures r.response.status == 200 <==> r.inserted.Some? && calendarAccepts
    ensures authorized && body.Json? && body.fields.task != "" && body.fields.startDate != "" && body.fields.category != "" ==>
      r.inserted == BuildEvent(body.fields)
    ensures authorized && body.Json? && body.fields.task != "" && body.fields.startDate != "" && body.fields.category != "" ==>
      r.response == (if BuildEvent(body.fields).None? then Response(500, Unhandled)
        else if calendarAccepts then Response(200, Message("Googleカレンダーに登録しました"))
        else Response(500, Error("カレンダー登録失敗")))
  {
    if !authorized then Exchange(None, Response(401, Error("未認証です")))
    else if body.Unparsable? then Exchange(None, Response(400, Error("無効なJSON形式")))
    else
      var f := body.fields;
      if f.task == "" || f.startDate == "" || f.category == "" then
        Exchange(None, Response(400, Error("パラメータ不足")))
      else
        match BuildEvent(f)
        case None => Exchange(None, Response(500, Unhandled))
        case Some(e) =>
          if calendarAccepts then Exchange(Some(e), Response(200, Message("Googleカレンダーに登録しました")))
          else Exchange(Some(e), Response(500, Error("カレンダー登録失敗")))
  }

  /**
   * An all-day request whose start date reads as a date makes an event from that date to the date
   * `SpanDays` days later, both as bare dates, coloured by category.
   */
  lemma AllDayEvent(f: Fields, d: Date)
    requires f.isAllDay && ParseDate(f.startDate) == Some(d)
    ensures var later := AddDays(d, SpanDays(f.days));
      && DayNumber(later) == DayNumber(d) + SpanDays(f.days)
      && BuildEvent(f) == Some(Event(f.task, ColorId(f.category), DateOnly(FormatDate(d)), DateOnly(FormatDate(later))))
  {
    MidnightOfDate(f.startDate);
    var t := LocalDateTime(d, 0, 0, 0);
    assert Start(f) == At(t);
    var e := t.(date := AddDays(d, SpanDays(f.days)));
    assert End(f) == At(e);
  }

  /**
   * A timed request whose start reads as a local time and whose duration parses makes an event
   * from that time to the time the duration later, never earlier than the start, in Tokyo time.
   */
  lemma TimedEvent(f: Fields, t: LocalDateTime)
    requires !f.isAllDay && ParseLocal(f.startDate) == Some(t) && ParseDuration(f.duration).Some?
    ensures var ms := ParseDuration(f.duration).value;
      var later := AddSeconds(t, ms / 1000);
      && Instant(later) == Instant(t) + ms / 1000 >= Instant(t)
      && BuildEvent(f) == Some(Event(f.task, ColorId(f.category),
           DateTime(FormatLocalDateTime(t), "Asia/Tokyo"), DateTime(FormatLocalDateTime(later), "Asia/Tokyo")))
  {
  }
}
