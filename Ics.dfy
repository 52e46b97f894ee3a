/** The itinerary-to-calendar converter, `generate_ics_content`: every day
    section `findall` finds becomes one all-day event dated
    `start + (N - 1)` days, in the order the sections appear; a text without
    any day header becomes a single event holding the whole text.

    Dates are day ordinals as Python's `date.toordinal()` numbers them
    (0001-01-01 is 1). The creation stamp DTSTAMP and the serialisation to
    iCalendar text are not modelled. */
module Ics {
  import opened Wrappers
  import opened Text
  import opened DayPattern

  /** The calendar's PRODID and VERSION properties. */
  const ProdId := "-//AI 旅行计划器//github.com//"
  const Version := "2.0"
  const Header := [("prodid", ProdId), ("version", Version)]

  /** The summary of the single event made when the text has no day header. */
  const FallbackSummary := "旅行行程"

  /** The ordinal of 9999-12-31, the last date Python's datetime represents. */
  const MaxOrdinal := 3652059

  predicate IsDate(d: int) {
    1 <= d <= MaxOrdinal
  }

  /** An all-day event: SUMMARY, DESCRIPTION, DTSTART and DTEND. */
  datatype Event = Event(summary: string, description: string, dtstart: int, dtend: int)

  /** The OverflowError raised by `start_date + timedelta(days=N - 1)` when the
      date leaves the range of datetime; it carries the day number N. */
  datatype DateOverflow = DateOverflow(day: nat)

  /** The summary `第 N 天行程` of the event for day N. */
  function DaySummary(n: nat): string {
    "第 " + Decimal(n) + " 天行程"
  }

  /** Different days get different summaries, and none is the fallback's. */
  lemma DaySummaryInjective(m: nat, n: nat)
    ensures DaySummary(m) == DaySummary(n) <==> m == n
    ensures DaySummary(n) != FallbackSummary
  {
    if DaySummary(m) == DaySummary(n) {
      var a, b := DaySummary(m), DaySummary(n);
      assert Decimal(m) == a[2..|a| - 4];
      assert Decimal(n) == b[2..|b| - 4];
      DecimalInjective(m, n);
    }
    assert DaySummary(n)[0] == '第' != '旅' == FallbackSummary[0];
  }

  /** The single event for a text without day headers. */
  function FallbackEvent(planText: string, startDay: int): Event {
    Event(FallbackSummary, planText, startDay, startDay)
  }

  /** The day groups `findall` returns all have a digit string as day number. */
  predicate DayNumbers(days: seq<(string, string)>) {
    forall k :: 0 <= k < |days| ==> AllDigits(days[k].0)
  }

  /** `int(day_num)`. */
  function DayOf(day: (string, string)): nat
    requires AllDigits(day.0)
  {
    DecimalValue(day.0)
  }

  /** `start_date + timedelta(days=day_num - 1)`, as a day ordinal. */
  function DateOf(day: (string, string), startDay: int): int
    requires AllDigits(day.0)
  {
    startDay + DayOf(day) - 1
  }

  /** The event for one day section whose date is in range. */
  function EventOf(day: (string, string), startDay: int): Event
    requires AllDigits(day.0)
  {
    Event(DaySummary(DayOf(day)), Strip(day.1), DateOf(day, startDay), DateOf(day, startDay))
  }

  /** The loop over the day sections: one event per section, in order; the
      first section whose date is out of range raises. */
  function DayEvents(days: seq<(string, string)>, startDay: int): (r: Result<seq<Event>, DateOverflow>)
    requires DayNumbers(days)
    ensures r.Success? ==> |r.value| == |days|
  {
    if |days| == 0 then Success([])
    else if !IsDate(DateOf(days[0], startDay)) then Failure(DateOverflow(DayOf(days[0])))
    else
      match DayEvents(days[1..], startDay)
      case Success(rest) => Success([EventOf(days[0], startDay)] + rest)
      case Failure(e) => Failure(e)
  }

  /** The loop succeeds exactly when every date is in range, and then yields
      one event per section, position by position; otherwise it raises for the
      first section whose date is not. */
  lemma {:induction false} DayEventsSpec(days: seq<(string, string)>, startDay: int)
    requires DayNumbers(days)
    ensures DayEvents(days, startDay).Success?
        <==> forall k :: 0 <= k < |days| ==> IsDate(DateOf(days[k], startDay))
    ensures DayEvents(days, startDay).Success? ==>
        |DayEvents(days, startDay).value| == |days|
        && forall k :: 0 <= k < |days| ==> DayEvents(days, startDay).value[k] == EventOf(days[k], startDay)
    ensures forall k :: (0 <= k < |days| && !IsDate(DateOf(days[k], startDay))
                         && (forall j :: 0 <= j < k ==> IsDate(DateOf(days[j], startDay))))
                        ==> DayEvents(days, startDay) == Failure(DateOverflow(DayOf(days[k])))
  {
    if |days| > 0 {
      var tail := days[1..];
      DayEventsSpec(tail, startDay);
      forall k | 1 <= k < |days|
        ensures days[k] == tail[k - 1]
      {
      }
      if IsDate(DateOf(days[0], startDay)) {
        forall k | 0 <= k < |days| && !IsDate(DateOf(days[k], startDay))
            && (forall j :: 0 <= j < k ==> IsDate(DateOf(days[j], startDay)))
          ensures DayEvents(days, startDay) == Failure(DateOverflow(DayOf(days[k])))
        {
          assert k > 0;
          assert forall j :: 0 <= j < k - 1 ==> IsDate(DateOf(tail[j], startDay)) by {
            forall j | 0 <= j < k - 1
              ensures IsDate(DateOf(tail[j], startDay))
            {
              assert tail[j] == days[j + 1];
            }
          }
        }
        if !DayEvents(tail, startDay).Success? {
          var k :| 0 <= k < |tail| && !IsDate(DateOf(tail[k], startDay));
          assert days[k + 1] == tail[k];
        }
      }
    }
  }

  /** When every date is in range, the loop's events are one per section. */
  lemma DayEventsAllInRange(days: seq<(string, string)>, startDay: int, events: seq<Event>)
    requires DayNumbers(days)
    requires forall j :: 0 <= j < |days| ==> IsDate(DateOf(days[j], startDay))
    requires |events| == |days|
    requires forall j :: 0 <= j < |days| ==> events[j] == EventOf(days[j], startDay)
    ensures DayEvents(days, startDay) == Success(events)
  {
    DayEventsSpec(days, startDay);
    assert DayEvents(days, startDay).value == events;
  }

  /** When section k is the first out of range, the loop raises for it. */
  lemma DayEventsFirstFailure(days: seq<(string, string)>, startDay: int, k: nat)
    requires DayNumbers(days)
    requires k < |days| && !IsDate(DateOf(days[k], startDay))
    requires forall j :: 0 <= j < k ==> IsDate(DateOf(days[j], startDay))
    ensures DayEvents(days, startDay) == Failure(DateOverflow(DayOf(days[k])))
  {
    DayEventsSpec(days, startDay);
  }

  /** A successful loop's k-th event is the k-th section's. */
  lemma DayEventAt(days: seq<(string, string)>, startDay: int, k: nat)
    requires DayNumbers(days) && k < |days|
    requires DayEvents(days, startDay).Success?
    ensures k < |DayEvents(days, startDay).value|
    ensures DayEvents(days, startDay).value[k] == EventOf(days[k], startDay)
  {
    DayEventsSpec(days, startDay);
  }

  /** `generate_ics_content` as a function of the text and the start date:
      the events it adds to the calendar, or the error it raises. */
  function Convert(planText: string, startDay: int): (r: Result<seq<Event>, DateOverflow>)
    requires IsDate(startDay)
    ensures r.Success? ==> |r.value| >= 1
  {
    var days := FindAll(planText);
    if |days| == 0 then Success([FallbackEvent(planText, startDay)])
    else DayEvents(days, startDay)
  }

  /** Without any `Day N:` header the result is exactly one event, summarised
      `旅行行程`, holding the whole unstripped text, dated the start date; with a
      header it is never that event. */
  lemma ConvertFallbackIff(planText: string, startDay: int)
    requires IsDate(startDay)
    ensures HeaderFree(planText, 0, |planText|)
        <==> Convert(planText, startDay) == Success([Event(FallbackSummary, planText, startDay, startDay)])
  {
    var days := FindAll(planText);
    FindAllEmptyIff(planText);
    if |days| > 0 {
      DayEventsSpec(days, startDay);
      if DayEvents(days, startDay).Success? {
        DaySummaryInjective(DayOf(days[0]), DayOf(days[0]));
      }
    }
  }

  /** The number of events is the number of day sections, or one when there is
      none. */
  lemma ConvertCount(planText: string, startDay: int)
    requires IsDate(startDay)
    requires Convert(planText, startDay).Success?
    ensures |Convert(planText, startDay).value| == if |FindAll(planText)| == 0 then 1 else |FindAll(planText)|
  {
    var days := FindAll(planText);
    if |days| > 0 {
      DayEventsSpec(days, startDay);
    }
  }

  /** The k-th event comes from the k-th header in the text, whatever its day
      number: summary `第 N 天行程`, the stripped body as description, and
      `start + (N - 1)` as both start and end date. */
  lemma ConvertEventAt(planText: string, startDay: int, k: nat)
    requires IsDate(startDay)
    requires Convert(planText, startDay).Success?
    requires k < |Scan(planText, 0)|
    ensures var m := Scan(planText, 0)[k];
            var n := DecimalValue(DayDigits(planText, m));
            k < |Convert(planText, startDay).value|
            && Convert(planText, startDay).value[k]
            == Event(DaySummary(n), Strip(Body(planText, m)), startDay + n - 1, startDay + n - 1)
  {
    var days := FindAll(planText);
    FindAllAt(planText, k);
    DayEventAt(days, startDay, k);
  }

  /** The conversion raises exactly when some day's date falls outside the
      range of datetime. */
  lemma ConvertFailsIff(planText: string, startDay: int)
    requires IsDate(startDay)
    ensures Convert(planText, startDay).Failure?
        <==> exists k :: 0 <= k < |FindAll(planText)| && !IsDate(DateOf(FindAll(planText)[k], startDay))
  {
    var days := FindAll(planText);
    if |days| > 0 {
      DayEventsSpec(days, startDay);
    }
  }

  /** Sections pass through in text order, unsorted: "Day 2: X Day 1: Y" gives
      the day-2 event first, dated the day after the start. */
  lemma OutOfOrderDaysKeepTextOrder(startDay: int)
    requires 1 <= startDay < MaxOrdinal
    ensures Convert("Day 2: X Day 1: Y", startDay)
        == Success([Event("第 2 天行程", "X", startDay + 1, startDay + 1),
                    Event("第 1 天行程", "Y", startDay, startDay)])
  {
    ExampleFindAll("Day 2: X Day 1: Y");
    ExampleDayEvents(startDay);
  }

  lemma ExampleDayEvents(startDay: int)
    requires 1 <= startDay < MaxOrdinal
    ensures DayEvents([("2", "X "), ("1", "Y")], startDay)
        == Success([Event("第 2 天行程", "X", startDay + 1, startDay + 1),
                    Event("第 1 天行程", "Y", startDay, startDay)])
  {
    var days := [("2", "X "), ("1", "Y")];
    var events := [Event("第 2 天行程", "X", startDay + 1, startDay + 1),
                   Event("第 1 天行程", "Y", startDay, startDay)];
    ExampleEvent("2", "X ", 2, "X", startDay);
    ExampleEvent("1", "Y", 1, "Y", startDay);
    assert "第 " + "2" + " 天行程" == "第 2 天行程";
    assert "第 " + "1" + " 天行程" == "第 1 天行程";
    DayEventsAllInRange(days, startDay, events);
  }

  lemma ExampleEvent(digits: string, body: string, n: nat, stripped: string, startDay: int)
    requires |digits| == 1 && IsDigit(digits[0]) && DigitValue(digits[0]) == n
    requires (body == "X " && stripped == "X") || (body == "Y" && stripped == "Y")
    ensures EventOf((digits, body), startDay)
        == Event("第 " + digits + " 天行程", stripped, startDay + n - 1, startDay + n - 1)
  {
    assert DecimalValue(digits) == n by {
      assert digits[..0] == [];
    }
    assert Decimal(n) == digits;
    assert Strip(body) == stripped by {
      assert RunEnd(body, 0, IsSpace) == 0;
      assert TrailStart(body, |body|) == 1;
    }
  }

  lemma ExampleFindAll(s: string)
    requires s == "Day 2: X Day 1: Y"
    ensures FindAll(s) == [("2", "X "), ("1", "Y")]
  {
    ExampleScan(s);
    var days := FindAll(s);
    assert |days| == 2;
    assert days[0] == (s[4..5], s[7..9]) && s[4..5] == "2" && s[7..9] == "X ";
    assert days[1] == (s[13..14], s[16..17]) && s[13..14] == "1" && s[16..17] == "Y";
  }

  lemma ExampleScan(s: string)
    requires s == "Day 2: X Day 1: Y"
    ensures Scan(s, 0) == [Match(0, 5, 7, 9), Match(9, 14, 16, 17)]
  {
    ExampleFirstMatch(s);
    ExampleSecondMatch(s);
    assert Scan(s, 17) == [];
    assert Scan(s, 9) == [Match(9, 14, 16, 17)] + Scan(s, 17);
  }

  lemma ExampleFirstMatch(s: string)
    requires s == "Day 2: X Day 1: Y"
    ensures MatchAt(s, 0) == Some(Match(0, 5, 7, 9))
  {
    assert RunEnd(s, 4, IsDigit) == 5 by {
      assert RunEnd(s, 5, IsDigit) == 5;
    }
    assert RunEnd(s, 5, IsSep) == 7 by {
      assert RunEnd(s, 7, IsSep) == 7;
      assert RunEnd(s, 6, IsSep) == 7;
    }
    assert NextBoundary(s, 7) == 9 by {
      assert DayDigitAt(s, 9);
      assert NextBoundary(s, 8) == 9;
    }
  }

  lemma ExampleSecondMatch(s: string)
    requires s == "Day 2: X Day 1: Y"
    ensures MatchAt(s, 9) == Some(Match(9, 14, 16, 17))
  {
    assert RunEnd(s, 13, IsDigit) == 14 by {
      assert RunEnd(s, 14, IsDigit) == 14;
    }
    assert RunEnd(s, 14, IsSep) == 16 by {
      assert RunEnd(s, 16, IsSep) == 16;
      assert RunEnd(s, 15, IsSep) == 16;
    }
    assert NextBoundary(s, 16) == 17 by {
      assert NextBoundary(s, 17) == 17;
    }
  }

  /** The calendar object: its properties and its components, in the order
      they were added. */
  class Calendar {
    var properties: seq<(string, string)>
    var components: seq<Event>

    constructor ()
      ensures properties == [] && components == []
    {
      properties := [];
      components := [];
    }

    /** `cal.add(name, value)`. */
    method Add(name: string, value: string)
      modifies this
      ensures properties == old(properties) + [(name, value)]
      ensures components == old(components)
    {
      properties := properties + [(name, value)];
    }

    /** `cal.add_component(event)`. */
    method AddComponent(e: Event)
      modifies this
      ensures components == old(components) + [e]
      ensures properties == old(properties)
    {
      components := components + [e];
    }
  }

  /** `generate_ics_content`: builds the calendar step by step. It always
      carries the fixed PRODID and VERSION, and its events are those of
      `Convert`; when `Convert` raises, so does this. */
  method GenerateIcs(planText: string, startDay: int) returns (r: Result<Calendar, DateOverflow>)
    requires IsDate(startDay)
    ensures r.Success? <==> Convert(planText, startDay).Success?
    ensures r.Success? ==> fresh(r.value) && r.value.properties == Header
                           && r.value.components == Convert(planText, startDay).value
    ensures r.Failure? ==> r.error == Convert(planText, startDay).error
  {
    var cal := new Calendar();
    cal.Add("prodid", ProdId);
    cal.Add("version", Version);
    var days := FindAll(planText);
    if |days| == 0 {
      cal.AddComponent(FallbackEvent(planText, startDay));
      return Success(cal);
    }
    var error := AddDayEvents(cal, days, startDay);
    if error.Some? {
      return Failure(error.value);
    }
    return Success(cal);
  }

  /** The `for` loop of `generate_ics_content`, run on the calendar that so
      far holds only its two properties: one `add_component` per day section,
      in order, stopping at the first date out of range. */
  method AddDayEvents(cal: Calendar, days: seq<(string, string)>, startDay: int)
    returns (error: Option<DateOverflow>)
    requires DayNumbers(days) && cal.components == []
    modifies cal
    ensures cal.properties == old(cal.properties)
    ensures error.None? <==> DayEvents(days, startDay).Success?
    ensures error.None? ==> cal.components == DayEvents(days, startDay).value
    ensures error.Some? ==> error.value == DayEvents(days, startDay).error
  {
    var k := 0;
    while k < |days| && IsDate(DateOf(days[k], startDay))
      invariant 0 <= k <= |days|
      invariant cal.properties == old(cal.properties)
      invariant |cal.components| == k
      invariant forall j :: 0 <= j < k ==> IsDate(DateOf(days[j], startDay))
      invariant forall j :: 0 <= j < k ==> cal.components[j] == EventOf(days[j], startDay)
    {
      cal.AddComponent(EventOf(days[k], startDay));
      k := k + 1;
    }
    if k < |days| {
      DayEventsFirstFailure(days, startDay, k);
      return Some(DateOverflow(DayOf(days[k])));
    }
    DayEventsAllInRange(days, startDay, cal.components);
    return None;
  }
}
