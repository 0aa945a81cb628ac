/**
 * The search flow of `src/App.tsx`: five state cells updated by the submit handler and by the
 * success, failure and settle branches of the two lookups, the choice of which of four views to
 * show, and the Hijri date text.
 *
 * The two HTTP lookups are not modelled; their outcomes arrive as events, one at a time and in
 * the order the code chains them: a submit, then the timings outcome, then (after a timings
 * success) the geocode outcome.
 */
module App {
  import opened Wrappers
  import opened Text
  import opened SalathTimes

  /** The Hijri part of the stored date; `month` is the month number, `weekday` its English name. */
  datatype Hijri = Hijri(day: string, month: nat, weekday: string, year: string)

  /** The `date` state cell: the readable Gregorian date and the Hijri date. */
  datatype DateInfo = DateInfo(gregorian: string, hijri: Hijri)

  /** The `locationName` state cell. */
  datatype LocationName = LocationName(city: string, country: string, timezone: string)

  /** The parts of a timings response the code reads. */
  datatype PayloadDate = PayloadDate(readable: string, hijri: Hijri)
  datatype Meta = Meta(latitude: real, longitude: real, timezone: string)
  datatype TimingsPayload = TimingsPayload(date: PayloadDate, timings: map<string, string>, meta: Meta)

  /** The query parameters of the timings lookup. */
  datatype TimingsQuery = TimingsQuery(city: string, country: string)

  /** The query parameters of the reverse-geocode lookup. */
  datatype GeoQuery = GeoQuery(latitude: real, longitude: real, localityLanguage: string)

  /** A reverse-geocode lookup in flight: its query and the timezone its handlers close over. */
  datatype GeoLookup = GeoLookup(query: GeoQuery, timezone: string)

  /** Which lookup, if any, is in flight. */
  datatype Pending = Idle | AwaitingTimings(timings: TimingsQuery) | AwaitingGeo(geo: GeoLookup)

  /** The four mutually exclusive branches of the page body. */
  datatype View = Spinner | ErrorGlyph | Prompt | Result(location: LocationName)

  /** The timings response carries all six keys the code destructures. */
  predicate HasPrayerKeys(m: map<string, string>) {
    "Fajr" in m && "Sunrise" in m && "Dhuhr" in m && "Asr" in m && "Maghrib" in m && "Isha" in m
  }

  /** The prayer-times object built from the response's timings: the six keys, every other key dropped. */
  function TimesOf(m: map<string, string>): (p: PrayerTimes)
    requires HasPrayerKeys(m)
    ensures p.fajr == m["Fajr"] && p.sunrise == m["Sunrise"] && p.dhuhr == m["Dhuhr"]
    ensures p.asr == m["Asr"] && p.maghrib == m["Maghrib"] && p.isha == m["Isha"]
  {
    PrayerTimes(m["Fajr"], m["Sunrise"], m["Dhuhr"], m["Asr"], m["Maghrib"], m["Isha"])
  }

  /** The stored prayer times list exactly the six keys, in the order Fajr .. Isha, with the response's values. */
  lemma TimesOfEntries(m: map<string, string>)
    requires HasPrayerKeys(m)
    ensures var e := Entries(TimesOf(m));
      |e| == |PrayerKeys|
      && forall i :: 0 <= i < |e| ==> e[i].0 == PrayerKeys[i] && PrayerKeys[i] in m && e[i].1 == m[PrayerKeys[i]]
  {
  }

  /**
   * The nested conditional choosing the page body: loading wins over error, error over the
   * missing location, and only a settled, error-free state with a location shows the result.
   */
  function SelectView(isLoading: bool, isError: bool, locationName: Option<LocationName>): (v: View)
    ensures v.Spinner? <==> isLoading
    ensures v.ErrorGlyph? <==> !isLoading && isError
    ensures v.Prompt? <==> !isLoading && !isError && locationName.None?
    ensures v.Result? <==> !isLoading && !isError && locationName.Some?
    ensures v.Result? ==> locationName == Some(v.location)
  {
    if isLoading then Spinner
    else if isError then ErrorGlyph
    else if locationName.None? then Prompt
    else Result(locationName.value)
  }

  /** The `hijriDate` template "(year/month/day)"; with no date each field prints as "undefined". */
  function HijriDate(date: Option<DateInfo>): (r: string)
    ensures |r| >= 2 && r[0] == '(' && r[|r| - 1] == ')'
  {
    match date
    case None => "(undefined/undefined/undefined)"
    case Some(d) => "(" + d.hijri.year + "/" + NatToString(d.hijri.month) + "/" + d.hijri.day + ")"
  }

  /**
   * Inside the parentheses the Hijri text splits at '/' into the year, the month number and the
   * day, and the month reads back as the stored number, provided year and day hold no '/'.
   */
  lemma HijriDateFields(d: DateInfo)
    requires '/' !in d.hijri.year && '/' !in d.hijri.day
    ensures var r := HijriDate(Some(d)); var fields := Split(r[1..|r| - 1], '/');
      fields == [d.hijri.year, NatToString(d.hijri.month), d.hijri.day]
      && DigitsValue(fields[1]) == d.hijri.month
  {
    var month := NatToString(d.hijri.month);
    var parts := [d.hijri.year, month, d.hijri.day];
    var r := HijriDate(Some(d));
    assert '/' !in month;
    assert Join(parts[2..], '/') == d.hijri.day;
    assert Join(parts[1..], '/') == month + ['/'] + d.hijri.day;
    assert r[1..|r| - 1] == Join(parts, '/');
    SplitJoin(parts, '/');
    DigitsValueOfNatToString(d.hijri.month);
  }

  /** The five state cells of the page, updated one event at a time. */
  class AppState {
    var isLoading: bool
    var isError: bool
    var salathTimes: Option<PrayerTimes>
    var date: Option<DateInfo>
    var locationName: Option<LocationName>
    /** Which lookup is in flight; the code keeps no such record, it is only the model's bookkeeping. */
    ghost var pending: Pending

    /**
     * The spinner is up exactly while a lookup is in flight, and a location name (like a geocode
     * lookup in flight) only ever exists beside stored prayer times and a stored date.
     */
    ghost predicate Valid()
      reads this
    {
      (isLoading <==> !pending.Idle?)
      && (pending.AwaitingGeo? ==> salathTimes.Some? && date.Some?)
      && (locationName.Some? ==> salathTimes.Some? && date.Some?)
    }

    /** The initial values of the five `useState` cells. */
    constructor ()
      ensures Valid() && pending == Idle
      ensures !isLoading && !isError
      ensures salathTimes.None? && date.None? && locationName.None?
    {
      isLoading, isError := false, false;
      salathTimes, date, locationName := None, None, None;
      pending := Idle;
    }

    /** The page body for the current state. */
    function CurrentView(): (v: View)
      reads this
      ensures v.Spinner? <==> isLoading
      ensures v.ErrorGlyph? <==> !isLoading && isError
      ensures v.Prompt? <==> !isLoading && !isError && locationName.None?
      ensures v.Result? ==> !isLoading && !isError && locationName == Some(v.location)
      ensures Valid() ==> (v.Spinner? <==> !pending.Idle?)
      ensures Valid() && v.Result? ==> salathTimes.Some? && date.Some?
    {
      SelectView(isLoading, isError, locationName)
    }

    /**
     * `handleSubmit`, given the input box's text (`None` when the box is not mounted): an empty or
     * missing text changes nothing and starts nothing; otherwise the spinner goes up and a timings
     * lookup starts with the text as both city and country.
     */
    method HandleSubmit(box: Option<string>) returns (lookup: Option<TimingsQuery>)
      requires Valid() && pending.Idle?
      modifies this
      ensures Valid()
      ensures lookup == if box.Some? && box.value != "" then Some(TimingsQuery(box.value, box.value)) else None
      ensures lookup.None? ==> unchanged(this)
      ensures lookup.Some? ==> isLoading && pending == AwaitingTimings(lookup.value)
      ensures isError == old(isError) && salathTimes == old(salathTimes)
      ensures date == old(date) && locationName == old(locationName)
    {
      if box.Some? {
        if box.value == "" {
          return None;
        }
        isLoading := true;
        var query := SearchForLocation(box.value);
        lookup := Some(query);
      } else {
        lookup := None;
      }
    }

    /** `searchForLocation`: issues the timings lookup. */
    method SearchForLocation(city: string) returns (query: TimingsQuery)
      modifies this
      ensures query == TimingsQuery(city, city) && pending == AwaitingTimings(query)
      ensures isLoading == old(isLoading) && isError == old(isError) && salathTimes == old(salathTimes)
      ensures date == old(date) && locationName == old(locationName)
    {
      query := TimingsQuery(city, city);
      pending := AwaitingTimings(query);
    }

    /**
     * The timings success branch: the date and the six prayer times are stored, the spinner stays
     * up, and a geocode lookup starts with the response's coordinates and timezone.
     */
    method OnTimingsOk(payload: TimingsPayload) returns (lookup: GeoLookup)
      requires Valid() && pending.AwaitingTimings? && HasPrayerKeys(payload.timings)
      modifies this
      ensures Valid()
      ensures date == Some(DateInfo(payload.date.readable, payload.date.hijri))
      ensures salathTimes == Some(TimesOf(payload.timings))
      ensures lookup == GeoLookup(GeoQuery(payload.meta.latitude, payload.meta.longitude, "en"), payload.meta.timezone)
      ensures pending == AwaitingGeo(lookup)
      ensures isLoading && isError == old(isError) && locationName == old(locationName)
    {
      date := Some(DateInfo(payload.date.readable, payload.date.hijri));
      salathTimes := Some(TimesOf(payload.timings));
      lookup := SearchLocationName(payload.meta.latitude, payload.meta.longitude, payload.meta.timezone);
    }

    /** `searchLocationName`: issues the reverse-geocode lookup. */
    method SearchLocationName(latitude: real, longitude: real, timezone: string) returns (lookup: GeoLookup)
      modifies this
      ensures lookup == GeoLookup(GeoQuery(latitude, longitude, "en"), timezone)
      ensures pending == AwaitingGeo(lookup)
      ensures isLoading == old(isLoading) && isError == old(isError) && salathTimes == old(salathTimes)
      ensures date == old(date) && locationName == old(locationName)
    {
      lookup := GeoLookup(GeoQuery(latitude, longitude, "en"), timezone);
      pending := AwaitingGeo(lookup);
    }

    /**
     * The timings failure branch: the spinner goes down and the error flag goes up; the stored
     * date, times and location stay as they were, and no geocode lookup starts.
     */
    method OnTimingsFail()
      requires Valid() && pending.AwaitingTimings?
      modifies this
      ensures Valid() && pending.Idle?
      ensures !isLoading && isError
      ensures salathTimes == old(salathTimes) && date == old(date) && locationName == old(locationName)
    {
      isLoading := false;
      isError := true;
      pending := Idle;
    }

    /** The geocode success branch, then the settle step: the location is the returned place in the response's timezone. */
    method OnGeoOk(lookup: GeoLookup, city: string, countryName: string)
      requires Valid() && pending == AwaitingGeo(lookup)
      modifies this
      ensures Valid() && pending.Idle?
      ensures locationName == Some(LocationName(city, countryName, lookup.timezone))
      ensures !isLoading && !isError
      ensures salathTimes == old(salathTimes) && date == old(date)
    {
      locationName := Some(LocationName(city, countryName, lookup.timezone));
      Settle();
    }

    /**
     * The geocode failure branch, then the settle step: the location falls back to the input
     * box's text at this moment (`None` when the box is not mounted, which leaves the location
     * as it was), with no country.
     */
    method OnGeoFail(lookup: GeoLookup, box: Option<string>)
      requires Valid() && pending == AwaitingGeo(lookup)
      modifies this
      ensures Valid() && pending.Idle?
      ensures locationName == if box.Some? then Some(LocationName(box.value, "", lookup.timezone)) else old(locationName)
      ensures !isLoading && !isError
      ensures salathTimes == old(salathTimes) && date == old(date)
    {
      if box.Some? {
        locationName := Some(LocationName(box.value, "", lookup.timezone));
      }
      Settle();
    }

    /** The `finally` step of the geocode lookup: both flags go down, whatever the outcome. */
    method Settle()
      modifies this
      ensures !isLoading && !isError && pending.Idle?
      ensures salathTimes == old(salathTimes) && date == old(date) && locationName == old(locationName)
    {
      isLoading := false;
      isError := false;
      pending := Idle;
    }
  }

  /**
   * In every reachable state the spinner shows exactly while a lookup is in flight, and the full
   * result is only ever shown with prayer times and a date to show beside the location.
   */
  lemma ViewOfValidState(s: AppState)
    requires s.Valid()
    ensures s.CurrentView().Spinner? <==> !s.pending.Idle?
    ensures s.CurrentView().Result? ==> s.salathTimes.Some? && s.date.Some? && s.locationName == Some(s.CurrentView().location)
  {
  }

  /**
   * A full search whose geocode lookup fails after the user has retyped the box: the location
   * shown is the text in the box when the lookup failed, not the text that was searched, while
   * the times and date come from the searched city's response.
   */
  method RetypedInputScenario(payload: TimingsPayload)
    requires HasPrayerKeys(payload.timings)
  {
    var app := new AppState();
    var search := app.HandleSubmit(Some("Makkah"));
    assert search == Some(TimingsQuery("Makkah", "Makkah"));
    assert app.CurrentView() == Spinner;
    var geo := app.OnTimingsOk(payload);
    assert app.CurrentView() == Spinner;
    app.OnGeoFail(geo, Some("Madinah"));
    assert app.locationName == Some(LocationName("Madinah", "", payload.meta.timezone));
    assert app.CurrentView() == Result(LocationName("Madinah", "", payload.meta.timezone));
    assert app.salathTimes == Some(TimesOf(payload.timings));
  }

  /** An empty submit is ignored, and a failed timings lookup shows the error glyph with no geocode lookup in flight. */
  method FailedSearchScenario()
  {
    var app := new AppState();
    var none := app.HandleSubmit(Some(""));
    assert none.None? && app.CurrentView() == Prompt;
    var search := app.HandleSubmit(Some("Atlantis"));
    assert search.Some?;
    app.OnTimingsFail();
    assert app.CurrentView() == ErrorGlyph && app.pending.Idle?;
    assert app.locationName.None? && app.salathTimes.None?;
  }
}
