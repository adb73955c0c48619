/** The aggregates of the transform event log: totals over five windows of time
    and one bucket for each of the last thirty days.  Times are milliseconds
    since the epoch. */
module Stats {
  import opened Options
  import opened Calendar
  import opened Decimals
  import opened Rfc3339

  const DAY_MS: nat := 86_400_000
  const TIMELINE_DAYS: nat := 30

  // ------------------------------------------------ events and their sums

  datatype Event = Event(ts: nat, applied: bool, reason: string, tokensBefore: nat, tokensAfter: nat,
                         tokensSaved: nat, imageCount: nat, durationMs: nat)

  predicate IsFailure(reason: string) {
    reason == "transform_error" || reason == "timeout" || reason == "parse_error" || reason == "worker_gone"
    || reason == "load_error"
  }

  datatype Sums = Sums(requests: nat, compressed: nat, bypassed: nat, errors: nat, tokensBefore: nat,
                       tokensAfter: nat, tokensSaved: nat, images: nat, timeMs: nat)

  const ZERO := Sums(0, 0, 0, 0, 0, 0, 0, 0, 0)

  function Plus(a: Sums, b: Sums): Sums {
    Sums(a.requests + b.requests, a.compressed + b.compressed, a.bypassed + b.bypassed, a.errors + b.errors,
         a.tokensBefore + b.tokensBefore, a.tokensAfter + b.tokensAfter, a.tokensSaved + b.tokensSaved,
         a.images + b.images, a.timeMs + b.timeMs)
  }

  predicate AtMost(a: Sums, b: Sums) {
    a.requests <= b.requests && a.compressed <= b.compressed && a.bypassed <= b.bypassed && a.errors <= b.errors
    && a.tokensBefore <= b.tokensBefore && a.tokensAfter <= b.tokensAfter && a.tokensSaved <= b.tokensSaved
    && a.images <= b.images && a.timeMs <= b.timeMs
  }

  /** What one event counts for. */
  function One(e: Event): Sums {
    if e.applied then Sums(1, 1, 0, 0, e.tokensBefore, e.tokensAfter, e.tokensSaved, e.imageCount, e.durationMs)
    else if IsFailure(e.reason) then ZERO.(requests := 1, errors := 1)
    else ZERO.(requests := 1, bypassed := 1)
  }

  /** From a time on, up to but not including another if there is one. */
  predicate Within(e: Event, from: nat, until: Option<nat>) {
    from <= e.ts && (until.Some? ==> e.ts < until.value)
  }

  function Tally(events: seq<Event>, from: nat, until: Option<nat>): Sums {
    if events == [] then ZERO
    else
      var last := events[|events| - 1];
      var before := Tally(events[..|events| - 1], from, until);
      if Within(last, from, until) then Plus(before, One(last)) else before
  }

  // ------------------------------------------------ days and their names

  function StartOfDay(millis: nat): nat { millis - millis % DAY_MS }

  function Back(from: nat, days: nat): nat {
    if days * DAY_MS <= from then from - days * DAY_MS else 0
  }

  function DateText(d: Date): string {
    Padded(d.year, 4) + "-" + Padded(d.month, 2) + "-" + Padded(d.day, 2)
  }

  function DateFromMillis(millis: nat): string {
    DateText(CivilFromDays(millis / 1000 / 86_400))
  }

  datatype DayTotals = DayTotals(date: string, tokensSaved: nat, compressed: nat, requests: nat)

  /** The first bucket with a date. */
  function FindBucket(timeline: seq<DayTotals>, date: string): (at: Option<nat>)
    ensures at.Some? ==> at.value < |timeline| && timeline[at.value].date == date
                         && forall i :: 0 <= i < at.value ==> timeline[i].date != date
    ensures at.None? ==> forall i :: 0 <= i < |timeline| ==> timeline[i].date != date
  {
    if timeline == [] then None
    else if timeline[0].date == date then Some(0)
    else
      var later := FindBucket(timeline[1..], date);
      if later.None? then None else Some(later.value + 1)
  }

  // ------------------------------------------------ the counters

  class Totals {
    var requests: nat
    var compressed: nat
    var bypassed: nat
    var errors: nat
    var tokensBefore: nat
    var tokensAfter: nat
    var tokensSaved: nat
    var images: nat
    var timeMs: nat
    var averageMs: nat

    constructor ()
      ensures Value() == ZERO
    {
      requests, compressed, bypassed, errors := 0, 0, 0, 0;
      tokensBefore, tokensAfter, tokensSaved, images, timeMs, averageMs := 0, 0, 0, 0, 0, 0;
    }

    function Value(): Sums
      reads this
    {
      Sums(requests, compressed, bypassed, errors, tokensBefore, tokensAfter, tokensSaved, images, timeMs)
    }

    method Accumulate(e: Event)
      modifies this
      ensures Value() == Plus(old(Value()), One(e))
    {
      requests := requests + 1;
      if e.applied {
        compressed := compressed + 1;
        tokensBefore := tokensBefore + e.tokensBefore;
        tokensAfter := tokensAfter + e.tokensAfter;
        tokensSaved := tokensSaved + e.tokensSaved;
        images := images + e.imageCount;
        timeMs := timeMs + e.durationMs;
      } else if IsFailure(e.reason) {
        errors := errors + 1;
      } else {
        bypassed := bypassed + 1;
      }
    }

    /** The average is rounded down, and zero when nothing was compressed. */
    predicate Averaged()
      reads this
    {
      if compressed == 0 then averageMs == 0 else averageMs * compressed <= timeMs < (averageMs + 1) * compressed
    }

    method Finalize()
      modifies this`averageMs
      ensures Averaged()
    {
      averageMs := if compressed == 0 then 0 else timeMs / compressed;
    }
  }

  // ------------------------------------------------ sums over adjacent times

  lemma TallyNext(events: seq<Event>, e: Event, from: nat, until: Option<nat>)
    ensures Tally(events + [e], from, until) ==
            if Within(e, from, until) then Plus(Tally(events, from, until), One(e)) else Tally(events, from, until)
  {
    assert (events + [e])[..|events|] == events;
  }

  lemma {:induction false} TallySplit(events: seq<Event>, from: nat, mid: nat, until: Option<nat>)
    requires from <= mid && (until.Some? ==> mid <= until.value)
    ensures Tally(events, from, until) == Plus(Tally(events, from, Some(mid)), Tally(events, mid, until))
  {
    hide One, Plus, Tally;
    if events == [] {
      TallyNone(from, until);
      TallyNone(from, Some(mid));
      TallyNone(mid, until);
      ZeroPlus(ZERO);
    } else {
      var front, last := events[..|events| - 1], events[|events| - 1];
      assert events == front + [last];
      TallySplit(front, from, mid, until);
      TallyNext(front, last, from, until);
      TallyNext(front, last, from, Some(mid));
      TallyNext(front, last, mid, until);
      PlusMoves(Tally(front, from, Some(mid)), Tally(front, mid, until), One(last));
    }
  }

  lemma PlusMoves(a: Sums, b: Sums, c: Sums)
    ensures Plus(Plus(a, b), c) == Plus(Plus(a, c), b) == Plus(a, Plus(b, c))
  {
  }

  lemma TallyNone(from: nat, until: Option<nat>)
    ensures Tally([], from, until) == ZERO
  {
  }

  lemma ZeroPlus(a: Sums)
    ensures Plus(a, ZERO) == a
  {
  }

  lemma TallyMore(events: seq<Event>, from: nat, later: nat)
    requires from <= later
    ensures AtMost(Tally(events, later, None), Tally(events, from, None))
  {
    TallySplit(events, from, later, None);
  }

  lemma {:induction false} Classified(events: seq<Event>, from: nat, until: Option<nat>)
    ensures var t := Tally(events, from, until); t.requests == t.compressed + t.bypassed + t.errors
  {
    if events != [] {
      Classified(events[..|events| - 1], from, until);
    }
  }

  /** A sum over the events of a span of time, one counter at a time. */
  function SumOf(events: seq<Event>, from: nat, until: Option<nat>, counts: Event -> nat): nat {
    if events == [] then 0
    else
      var last := events[|events| - 1];
      SumOf(events[..|events| - 1], from, until, counts)
      + (if from <= last.ts && (until.None? || last.ts < until.value) then counts(last) else 0)
  }

  predicate Failed(e: Event) {
    !e.applied
    && (e.reason == "transform_error" || e.reason == "timeout" || e.reason == "parse_error"
        || e.reason == "worker_gone" || e.reason == "load_error")
  }

  /** Each counter counts what it is named for: requests all events, compressed
      and the five amounts the applied ones, errors the failures among the
      others, bypassed the rest. */
  lemma {:induction false} CountersCount(events: seq<Event>, from: nat, until: Option<nat>)
    ensures var t := Tally(events, from, until);
            t.requests == SumOf(events, from, until, e => 1)
            && t.compressed == SumOf(events, from, until, (e: Event) => if e.applied then 1 else 0)
            && t.errors == SumOf(events, from, until, (e: Event) => if Failed(e) then 1 else 0)
            && t.bypassed == SumOf(events, from, until, (e: Event) => if e.applied || Failed(e) then 0 else 1)
    ensures var t := Tally(events, from, until);
            t.tokensBefore == SumOf(events, from, until, (e: Event) => if e.applied then e.tokensBefore else 0)
            && t.tokensAfter == SumOf(events, from, until, (e: Event) => if e.applied then e.tokensAfter else 0)
            && t.tokensSaved == SumOf(events, from, until, (e: Event) => if e.applied then e.tokensSaved else 0)
            && t.images == SumOf(events, from, until, (e: Event) => if e.applied then e.imageCount else 0)
            && t.timeMs == SumOf(events, from, until, (e: Event) => if e.applied then e.durationMs else 0)
  {
    if events != [] {
      CountersCount(events[..|events| - 1], from, until);
    }
  }

  /** The windows nest, and each counts every request once. */
  lemma WindowsNest(events: seq<Event>, now: nat)
    ensures var today := StartOfDay(now);
            AtMost(Plus(Tally(events, today, None), Tally(events, Back(today, 1), Some(today))),
                   Tally(events, Back(now, 7), None))
            && AtMost(Tally(events, Back(now, 7), None), Tally(events, Back(now, 30), None))
            && AtMost(Tally(events, Back(now, 30), None), Tally(events, 0, None))
  {
    hide Tally;
    var today := StartOfDay(now);
    TallySplit(events, Back(today, 1), today, None);
    TallyMore(events, Back(now, 7), Back(today, 1));
    TallyMore(events, Back(now, 30), Back(now, 7));
    TallyMore(events, 0, Back(now, 30));
  }

  // ------------------------------------------------ date names tell days apart

  lemma {:induction false} ValueZeros(n: nat, digits: string)
    requires AllDigits(digits)
    ensures AllDigits(Zeros(n) + digits) && Value(Zeros(n) + digits) == Value(digits)
    decreases |digits|, n
  {
    var text := Zeros(n) + digits;
    if digits == "" {
      assert text == Zeros(n);
      if n > 0 {
        assert text[..n - 1] == Zeros(n - 1) + "";
        ValueZeros(n - 1, "");
        assert text[n - 1] == '0' && DigitValue('0') == 0;
      }
    } else {
      var front := digits[..|digits| - 1];
      ValueZeros(n, front);
      assert text[..|text| - 1] == Zeros(n) + front;
    }
  }

  lemma PaddedValue(n: nat, width: nat)
    ensures AllDigits(Padded(n, width)) && Value(Padded(n, width)) == n
  {
    hide Value, Decimal, AllDigits;
    DecimalValue(n);
    var digits := Decimal(n);
    if |digits| < width {
      ValueZeros(width - |digits|, digits);
    }
  }

  lemma SameParts(a: string, b: string, c: string, x: string, y: string, z: string)
    requires a + "-" + b + "-" + c == x + "-" + y + "-" + z && |b| == |y| == |c| == |z| == 2
    ensures a == x && b == y && c == z
  {
    var s, t := a + "-" + b + "-" + c, x + "-" + y + "-" + z;
    assert |a| == |x|;
    assert s[..|a|] == a && t[..|a|] == x;
    assert s[|a| + 1..|a| + 3] == b && t[|a| + 1..|a| + 3] == y;
    assert s[|a| + 4..] == c && t[|a| + 4..] == z;
  }

  /** Two dates are written alike only if they are the same date. */
  lemma DateTextTells(a: Date, b: Date)
    requires ValidDate(a) && ValidDate(b) && a.year >= 0 && b.year >= 0 && DateText(a) == DateText(b)
    ensures a == b
  {
    hide Padded, Value;
    PaddedTwo(a.month);
    PaddedTwo(a.day);
    PaddedTwo(b.month);
    PaddedTwo(b.day);
    SameParts(Padded(a.year, 4), Padded(a.month, 2), Padded(a.day, 2),
              Padded(b.year, 4), Padded(b.month, 2), Padded(b.day, 2));
    PaddedValue(a.year, 4);
    PaddedValue(a.month, 2);
    PaddedValue(a.day, 2);
    PaddedValue(b.year, 4);
    PaddedValue(b.month, 2);
    PaddedValue(b.day, 2);
  }

  lemma DayNumber(millis: nat)
    ensures millis / 1000 / 86_400 == millis / DAY_MS
  {
  }

  /** Two times are given the same date exactly when they are on the same day. */
  lemma SameDateSameDay(a: nat, b: nat)
    ensures DateFromMillis(a) == DateFromMillis(b) <==> a / DAY_MS == b / DAY_MS
  {
    hide DateText, CivilFromDays, ValidDate, DaysFromCivil;
    DayNumber(a);
    DayNumber(b);
    var m, n := a / DAY_MS, b / DAY_MS;
    if DateFromMillis(a) == DateFromMillis(b) {
      CivilSuccessor(m);
      CivilSuccessor(n);
      YearsFromEpoch(m);
      YearsFromEpoch(n);
      DateTextTells(CivilFromDays(m), CivilFromDays(n));
      DaysOfCivil(m);
      DaysOfCivil(n);
    }
  }

  // ------------------------------------------------ the timeline

  /** The start of the day that bucket `i` stands for; the last is today. */
  function BucketStart(now: nat, i: nat): nat
    requires i < TIMELINE_DAYS
  {
    Back(StartOfDay(now), TIMELINE_DAYS - 1 - i)
  }

  function Dates(now: nat): seq<string> {
    seq(TIMELINE_DAYS, i requires 0 <= i < TIMELINE_DAYS => DateFromMillis(BucketStart(now, i)))
  }

  /** Bucket `i` is the first with the event's date. */
  predicate LandsIn(e: Event, dates: seq<string>, i: nat)
    requires i < |dates|
  {
    dates[i] == DateFromMillis(e.ts) && forall j :: 0 <= j < i ==> dates[j] != DateFromMillis(e.ts)
  }

  function BucketTally(events: seq<Event>, dates: seq<string>, i: nat): Sums
    requires i < |dates|
  {
    if events == [] then ZERO
    else
      var last := events[|events| - 1];
      var before := BucketTally(events[..|events| - 1], dates, i);
      if LandsIn(last, dates, i) then Plus(before, One(last)) else before
  }

  function Bucket(date: string, sums: Sums): DayTotals {
    DayTotals(date, sums.tokensSaved, sums.compressed, sums.requests)
  }

  predicate Filled(timeline: seq<DayTotals>, events: seq<Event>, dates: seq<string>) {
    |timeline| == |dates|
    && forall i :: 0 <= i < |dates| ==> timeline[i] == Bucket(dates[i], BucketTally(events, dates, i))
  }

  lemma BucketTallyNext(events: seq<Event>, e: Event, dates: seq<string>, i: nat)
    requires i < |dates|
    ensures BucketTally(events + [e], dates, i) ==
            if LandsIn(e, dates, i) then Plus(BucketTally(events, dates, i), One(e)) else BucketTally(events, dates, i)
  {
    assert (events + [e])[..|events|] == events;
  }

  /** The bucket with an event's date, after the event is counted in it. */
  function Counted(b: DayTotals, e: Event): DayTotals {
    if e.applied then DayTotals(b.date, b.tokensSaved + e.tokensSaved, b.compressed + 1, b.requests + 1)
    else b.(requests := b.requests + 1)
  }

  lemma BucketCounted(date: string, sums: Sums, e: Event)
    ensures Counted(Bucket(date, sums), e) == Bucket(date, Plus(sums, One(e)))
  {
  }

  lemma FilledNext(timeline: seq<DayTotals>, events: seq<Event>, dates: seq<string>, e: Event, at: Option<nat>)
    requires Filled(timeline, events, dates) && at == FindBucket(timeline, DateFromMillis(e.ts))
    ensures var after := if at.None? then timeline else timeline[at.value := Counted(timeline[at.value], e)];
            Filled(after, events + [e], dates)
  {
    hide One, Plus, Bucket, Counted, DateFromMillis, BucketTally, FindBucket, LandsIn;
    var after := if at.None? then timeline else timeline[at.value := Counted(timeline[at.value], e)];
    BucketDates(timeline, events, dates);
    forall i | 0 <= i < |dates|
      ensures after[i] == Bucket(dates[i], BucketTally(events + [e], dates, i))
    {
      BucketTallyNext(events, e, dates, i);
      BucketCounted(dates[i], BucketTally(events, dates, i), e);
      Lands(timeline, dates, e, at, i);
    }
  }

  lemma BucketDates(timeline: seq<DayTotals>, events: seq<Event>, dates: seq<string>)
    requires Filled(timeline, events, dates)
    ensures forall i :: 0 <= i < |dates| ==> timeline[i].date == dates[i]
  {
    hide BucketTally;
  }

  lemma Lands(timeline: seq<DayTotals>, dates: seq<string>, e: Event, at: Option<nat>, i: nat)
    requires |timeline| == |dates| && (forall j :: 0 <= j < |dates| ==> timeline[j].date == dates[j])
    requires at == FindBucket(timeline, DateFromMillis(e.ts)) && i < |dates|
    ensures LandsIn(e, dates, i) <==> at == Some(i)
  {
    hide FindBucket, DateFromMillis;
    if at.Some? {
      assert timeline[at.value].date == dates[at.value];
    }
  }

  // ------------------------------------------------ the whole

  /** The five windows, the timeline and the most recent events. */
  method Aggregate(events: seq<Event>, now: nat, recentLimit: nat)
    returns (all: Totals, today: Totals, yesterday: Totals, last7d: Totals, last30d: Totals,
             timeline: seq<DayTotals>, recent: seq<Event>)
    ensures fresh(all) && fresh(today) && fresh(yesterday) && fresh(last7d) && fresh(last30d)
    ensures all.Value() == Tally(events, 0, None)
    ensures today.Value() == Tally(events, StartOfDay(now), None)
    ensures yesterday.Value() == Tally(events, Back(StartOfDay(now), 1), Some(StartOfDay(now)))
    ensures last7d.Value() == Tally(events, Back(now, 7), None)
    ensures last30d.Value() == Tally(events, Back(now, 30), None)
    ensures all.Averaged() && today.Averaged() && yesterday.Averaged() && last7d.Averaged() && last30d.Averaged()
    ensures Filled(timeline, events, Dates(now))
    ensures |recent| == (if recentLimit < |events| then recentLimit else |events|)
    ensures forall i :: 0 <= i < |recent| ==> recent[i] == events[|events| - 1 - i]
  {
    hide Tally, Filled, One, Plus, Dates, Within, Back, StartOfDay, Totals.Value, Totals.Averaged;
    var start := StartOfDay(now);
    all := new Totals();
    today := new Totals();
    yesterday := new Totals();
    last7d := new Totals();
    last30d := new Totals();
    timeline := EmptyTimeline(now);
    NothingTallied(now);
    assert events[..0] == [];
    for n := 0 to |events|
      invariant fresh(all) && fresh(today) && fresh(yesterday) && fresh(last7d) && fresh(last30d)
      invariant all != today && all != yesterday && all != last7d && all != last30d && today != yesterday
      invariant today != last7d && today != last30d && yesterday != last7d && yesterday != last30d && last7d != last30d
      invariant all.Value() == Tally(events[..n], 0, None)
      invariant today.Value() == Tally(events[..n], start, None)
      invariant yesterday.Value() == Tally(events[..n], Back(start, 1), Some(start))
      invariant last7d.Value() == Tally(events[..n], Back(now, 7), None)
      invariant last30d.Value() == Tally(events[..n], Back(now, 30), None)
      invariant Filled(timeline, events[..n], Dates(now))
    {
      var event := events[n];
      assert events[..n + 1] == events[..n] + [event];
      AllNext(events[..n], event, now);
      CountEvent(all, today, yesterday, last7d, last30d, event, now);
      timeline := CountIn(timeline, events[..n], Dates(now), event);
    }
    assert events[..|events|] == events;
    FinalizeAll(all, today, yesterday, last7d, last30d);
    recent := Newest(events, recentLimit);
  }

  method FinalizeAll(all: Totals, today: Totals, yesterday: Totals, last7d: Totals, last30d: Totals)
    modifies all`averageMs, today`averageMs, yesterday`averageMs, last7d`averageMs, last30d`averageMs
    ensures all.Averaged() && today.Averaged() && yesterday.Averaged() && last7d.Averaged() && last30d.Averaged()
    ensures all.Value() == old(all.Value()) && today.Value() == old(today.Value())
    ensures yesterday.Value() == old(yesterday.Value())
    ensures last7d.Value() == old(last7d.Value()) && last30d.Value() == old(last30d.Value())
  {
    all.Finalize();
    today.Finalize();
    yesterday.Finalize();
    last7d.Finalize();
    last30d.Finalize();
  }

  /** Count an event in the windows it falls into. */
  method CountEvent(all: Totals, today: Totals, yesterday: Totals, last7d: Totals, last30d: Totals,
                    event: Event, now: nat)
    requires all != today && all != yesterday && all != last7d && all != last30d && today != yesterday
    requires today != last7d && today != last30d && yesterday != last7d && yesterday != last30d && last7d != last30d
    modifies all, today, yesterday, last7d, last30d
    ensures Grew(all.Value(), old(all.Value()), event, true)
    ensures Grew(today.Value(), old(today.Value()), event, Within(event, StartOfDay(now), None))
    ensures Grew(yesterday.Value(), old(yesterday.Value()), event,
                 Within(event, Back(StartOfDay(now), 1), Some(StartOfDay(now))))
    ensures Grew(last7d.Value(), old(last7d.Value()), event, Within(event, Back(now, 7), None))
    ensures Grew(last30d.Value(), old(last30d.Value()), event, Within(event, Back(now, 30), None))
  {
    hide One, Plus, Back, StartOfDay;
    var start := StartOfDay(now);
    all.Accumulate(event);
    if event.ts >= start {
      today.Accumulate(event);
    } else if event.ts >= Back(start, 1) {
      yesterday.Accumulate(event);
    }
    if event.ts >= Back(now, 7) {
      last7d.Accumulate(event);
    }
    if event.ts >= Back(now, 30) {
      last30d.Accumulate(event);
    }
  }

  predicate Grew(after: Sums, before: Sums, event: Event, within: bool) {
    after == if within then Plus(before, One(event)) else before
  }

  method EmptyTimeline(now: nat) returns (timeline: seq<DayTotals>)
    ensures Filled(timeline, [], Dates(now))
  {
    hide DateFromMillis;
    var start := StartOfDay(now);
    timeline := [];
    var offset := TIMELINE_DAYS;
    while offset > 0
      invariant 0 <= offset <= TIMELINE_DAYS == |timeline| + offset
      invariant forall i :: 0 <= i < |timeline| ==> timeline[i] == DayTotals(Dates(now)[i], 0, 0, 0)
    {
      offset := offset - 1;
      timeline := timeline + [DayTotals(DateFromMillis(Back(start, offset)), 0, 0, 0)];
    }
  }

  method CountIn(timeline: seq<DayTotals>, ghost events: seq<Event>, ghost dates: seq<string>, e: Event)
    returns (after: seq<DayTotals>)
    requires Filled(timeline, events, dates)
    ensures Filled(after, events + [e], dates)
  {
    hide Filled, DateFromMillis;
    after := timeline;
    var at := FindBucket(timeline, DateFromMillis(e.ts));
    FilledNext(timeline, events, dates, e, at);
    if at.Some? {
      var bucket := after[at.value];
      bucket := bucket.(requests := bucket.requests + 1);
      if e.applied {
        bucket := bucket.(compressed := bucket.compressed + 1, tokensSaved := bucket.tokensSaved + e.tokensSaved);
      }
      after := after[at.value := bucket];
    }
  }

  method Newest(events: seq<Event>, limit: nat) returns (recent: seq<Event>)
    ensures |recent| == (if limit < |events| then limit else |events|)
    ensures forall i :: 0 <= i < |recent| ==> recent[i] == events[|events| - 1 - i]
  {
    var start := if limit < |events| then |events| - limit else 0;
    var tail := events[start..];
    recent := seq(|tail|, i requires 0 <= i < |tail| => tail[|tail| - 1 - i]);
  }

  lemma NothingTallied(now: nat)
    ensures Tally([], 0, None) == ZERO && Tally([], StartOfDay(now), None) == ZERO
    ensures Tally([], Back(StartOfDay(now), 1), Some(StartOfDay(now))) == ZERO
    ensures Tally([], Back(now, 7), None) == ZERO && Tally([], Back(now, 30), None) == ZERO
  {
    TallyNone(0, None);
    TallyNone(StartOfDay(now), None);
    TallyNone(Back(StartOfDay(now), 1), Some(StartOfDay(now)));
    TallyNone(Back(now, 7), None);
    TallyNone(Back(now, 30), None);
  }

  lemma AllNext(events: seq<Event>, e: Event, now: nat)
    ensures Grew(Tally(events + [e], 0, None), Tally(events, 0, None), e, true)
    ensures Grown(events, e, StartOfDay(now), None)
    ensures Grown(events, e, Back(StartOfDay(now), 1), Some(StartOfDay(now)))
    ensures Grown(events, e, Back(now, 7), None) && Grown(events, e, Back(now, 30), None)
  {
    hide Tally, One, Plus;
    TallyNext(events, e, 0, None);
    TallyNext(events, e, StartOfDay(now), None);
    TallyNext(events, e, Back(StartOfDay(now), 1), Some(StartOfDay(now)));
    TallyNext(events, e, Back(now, 7), None);
    TallyNext(events, e, Back(now, 30), None);
  }

  predicate Grown(events: seq<Event>, e: Event, from: nat, until: Option<nat>) {
    Grew(Tally(events + [e], from, until), Tally(events, from, until), e, Within(e, from, until))
  }

  // ------------------------------------------------ what the timeline shows

  /** The day `i` of the timeline, counted from the epoch. */
  lemma BucketDay(now: nat, i: nat)
    requires i < TIMELINE_DAYS
    ensures Dates(now)[i] == DateFromMillis(BucketStart(now, i))
    ensures BucketStart(now, i) % DAY_MS == 0
    ensures now / DAY_MS >= TIMELINE_DAYS - 1 ==>
              BucketStart(now, i) / DAY_MS == now / DAY_MS - (TIMELINE_DAYS - 1 - i)
    ensures now / DAY_MS < TIMELINE_DAYS - 1 - i ==> BucketStart(now, i) == 0
  {
    hide DateFromMillis;
    Quotient(now / DAY_MS, now % DAY_MS, now, TIMELINE_DAYS - 1 - i);
  }

  lemma Quotient(day: nat, rest: nat, now: nat, back: nat)
    requires rest < DAY_MS && now == day * DAY_MS + rest
    ensures StartOfDay(now) == day * DAY_MS
    ensures Back(StartOfDay(now), back) == if back <= day then (day - back) * DAY_MS else 0
    ensures Back(StartOfDay(now), back) % DAY_MS == 0
    ensures Back(StartOfDay(now), back) / DAY_MS == if back <= day then day - back else 0
  {
    assert now % DAY_MS == rest;
  }

  ghost predicate Distinct(dates: seq<string>) {
    forall i, j :: 0 <= i < j < |dates| ==> dates[i] != dates[j]
  }

  /** The timeline's dates are distinct exactly from the thirtieth day on; in
      the days before, the first date is repeated. */
  lemma DatesDistinct(now: nat)
    ensures Distinct(Dates(now)) <==> now / DAY_MS >= TIMELINE_DAYS - 1
  {
    hide DateFromMillis, BucketStart, Dates;
    var dates := Dates(now);
    assert |dates| == TIMELINE_DAYS by { DatesLength(now); }
    forall i: nat, j: nat | i < j < TIMELINE_DAYS && now / DAY_MS >= TIMELINE_DAYS - 1
      ensures dates[i] != dates[j]
    {
      BucketDay(now, i);
      BucketDay(now, j);
      SameDateSameDay(BucketStart(now, i), BucketStart(now, j));
    }
    if now / DAY_MS < TIMELINE_DAYS - 1 {
      BucketDay(now, 0);
      BucketDay(now, 1);
      FirstTwo(now);
      assert dates[0] == dates[1];
    }
  }

  lemma DatesLength(now: nat)
    ensures |Dates(now)| == TIMELINE_DAYS
  {
  }

  /** Before the thirtieth day the two earliest buckets both stand for day 0. */
  lemma FirstTwo(now: nat)
    requires now / DAY_MS < TIMELINE_DAYS - 1
    ensures BucketStart(now, 0) == BucketStart(now, 1) == 0
  {
    Quotient(now / DAY_MS, now % DAY_MS, now, TIMELINE_DAYS - 1);
    Quotient(now / DAY_MS, now % DAY_MS, now, TIMELINE_DAYS - 2);
  }

  /** From the thirtieth day on, an event lands in a bucket exactly when it is
      on the bucket's day. */
  lemma LandsOnDay(e: Event, now: nat, i: nat)
    requires now / DAY_MS >= TIMELINE_DAYS - 1 && i < TIMELINE_DAYS
    ensures LandsIn(e, Dates(now), i) <==> Within(e, BucketStart(now, i), Some(BucketStart(now, i) + DAY_MS))
  {
    hide DateFromMillis, BucketStart, Dates, Distinct;
    var dates := Dates(now);
    DatesLength(now);
    DatesDistinct(now);
    BucketDay(now, i);
    SameDateSameDay(BucketStart(now, i), e.ts);
    SameDay(BucketStart(now, i), e.ts);
    if dates[i] == DateFromMillis(e.ts) {
      Earlier(dates, i);
    }
  }

  lemma Earlier(dates: seq<string>, i: nat)
    requires Distinct(dates) && i < |dates|
    ensures forall j :: 0 <= j < i ==> dates[j] != dates[i]
  {
  }

  lemma SameDay(start: nat, ts: nat)
    requires start % DAY_MS == 0
    ensures start / DAY_MS == ts / DAY_MS <==> start <= ts < start + DAY_MS
  {
  }

  lemma {:induction false} BucketIsDay(events: seq<Event>, now: nat, i: nat)
    requires now / DAY_MS >= TIMELINE_DAYS - 1 && i < TIMELINE_DAYS
    ensures |Dates(now)| == TIMELINE_DAYS
    ensures BucketTally(events, Dates(now), i)
         == Tally(events, BucketStart(now, i), Some(BucketStart(now, i) + DAY_MS))
  {
    hide One, Plus, LandsIn, Within, Dates, BucketStart;
    DatesLength(now);
    if events != [] {
      BucketIsDay(events[..|events| - 1], now, i);
      LandsOnDay(events[|events| - 1], now, i);
    }
  }

  /** Each bucket has the date of its day and counts that day's events. */
  lemma TimelineSays(timeline: seq<DayTotals>, events: seq<Event>, now: nat, i: nat)
    requires Filled(timeline, events, Dates(now))
    requires now / 86_400_000 >= 29 && i < 30
    ensures |timeline| == 30
    ensures var start := (now / 86_400_000 - 29 + i) * 86_400_000;
            var day := Tally(events, start, Some(start + 86_400_000));
            timeline[i].date == DateFromMillis(start) && timeline[i].requests == day.requests
            && timeline[i].compressed == day.compressed && timeline[i].tokensSaved == day.tokensSaved
  {
    hide Dates, BucketTally, Tally, DateFromMillis, StartOfDay, Back;
    DatesLength(now);
    BucketDay(now, i);
    BucketIsDay(events, now, i);
    StartsAt(BucketStart(now, i), now / 86_400_000 - 29 + i);
  }

  lemma StartsAt(start: nat, day: nat)
    requires start % DAY_MS == 0 && start / DAY_MS == day
    ensures start == day * 86_400_000
  {
  }

  /** A date is written as the first part of the whole time stamp. */
  lemma DateOfStamp(millis: nat)
    ensures DateFromMillis(millis) + "T" <= Format(millis)
  {
    hide Padded, CivilFromDays;
    var d, clock := CivilFromDays(millis / 1000 / 86_400), ClockOf(millis / 1000 % 86_400);
    assert Format(millis)
        == DateText(d) + "T"
           + (Padded(clock.hour, 2) + ":" + Padded(clock.minute, 2) + ":" + Padded(clock.second, 2) + "Z");
  }

  /** Each event of the last thirty days, today included, is in exactly one
      bucket, and no other event is in any. */
  lemma InExactlyOne(e: Event, now: nat)
    requires now / DAY_MS >= TIMELINE_DAYS - 1
    ensures |Dates(now)| == TIMELINE_DAYS
    ensures (exists i: nat :: i < TIMELINE_DAYS && LandsIn(e, Dates(now), i))
            <==> BucketStart(now, 0) <= e.ts < StartOfDay(now) + DAY_MS
    ensures forall i: nat, j: nat :: i < j < TIMELINE_DAYS ==> !(LandsIn(e, Dates(now), i) && LandsIn(e, Dates(now), j))
  {
    hide DateFromMillis, Dates;
    DatesLength(now);
    var day, of := now / DAY_MS, e.ts / DAY_MS;
    var first := day - (TIMELINE_DAYS - 1);
    Quotient(day, now % DAY_MS, now, 0);
    Quotient(day, now % DAY_MS, now, TIMELINE_DAYS - 1);
    DayBounds(e.ts, first, day);
    if first <= of <= day {
      var i: nat := of - first;
      BucketDay(now, i);
      SameDay(BucketStart(now, i), e.ts);
      LandsOnDay(e, now, i);
      assert LandsIn(e, Dates(now), i);
    }
    if i: nat :| i < TIMELINE_DAYS && LandsIn(e, Dates(now), i) {
      BucketDay(now, i);
      LandsOnDay(e, now, i);
      SameDay(BucketStart(now, i), e.ts);
    }
  }

  lemma DayBounds(ts: nat, first: nat, last: nat)
    ensures first <= ts / DAY_MS <= last <==> first * DAY_MS <= ts < last * DAY_MS + DAY_MS
  {
  }

  /** Requests in the first `n` buckets. */
  function InBuckets(events: seq<Event>, now: nat, n: nat): Sums
    requires n <= TIMELINE_DAYS
  {
    if n == 0 then ZERO
    else Plus(InBuckets(events, now, n - 1), BucketTally(events, Dates(now), n - 1))
  }

  /** The buckets together count each event of their thirty days once. */
  lemma {:induction false} BucketsAddUp(events: seq<Event>, now: nat, n: nat)
    requires now / DAY_MS >= TIMELINE_DAYS - 1 && 0 < n <= TIMELINE_DAYS
    ensures InBuckets(events, now, n)
         == Tally(events, BucketStart(now, 0), Some(BucketStart(now, n - 1) + DAY_MS))
  {
    hide Plus, BucketTally, Tally, BucketStart, Dates;
    BucketIsDay(events, now, n - 1);
    if n == 1 {
      ZeroFirst(BucketTally(events, Dates(now), 0));
    } else {
      BucketsAddUp(events, now, n - 1);
      NextBucket(now, n - 1);
      TallySplit(events, BucketStart(now, 0), BucketStart(now, n - 1), Some(BucketStart(now, n - 1) + DAY_MS));
    }
  }

  lemma ZeroFirst(a: Sums)
    ensures Plus(ZERO, a) == a
  {
  }

  lemma NextBucket(now: nat, i: nat)
    requires now / DAY_MS >= TIMELINE_DAYS - 1 && 0 < i < TIMELINE_DAYS
    ensures BucketStart(now, i) == BucketStart(now, i - 1) + DAY_MS
    ensures BucketStart(now, 0) <= BucketStart(now, i)
  {
    var day := now / DAY_MS;
    Quotient(day, now % DAY_MS, now, TIMELINE_DAYS - 1 - i);
    Quotient(day, now % DAY_MS, now, TIMELINE_DAYS - i);
    Quotient(day, now % DAY_MS, now, TIMELINE_DAYS - 1);
  }

  /** With no event after today, the last two buckets are the windows of today
      and of yesterday. */
  lemma LastTwoBuckets(events: seq<Event>, now: nat)
    requires now / DAY_MS >= TIMELINE_DAYS - 1
    requires forall i :: 0 <= i < |events| ==> events[i].ts < StartOfDay(now) + DAY_MS
    ensures |Dates(now)| == TIMELINE_DAYS
    ensures BucketTally(events, Dates(now), TIMELINE_DAYS - 1) == Tally(events, StartOfDay(now), None)
    ensures BucketTally(events, Dates(now), TIMELINE_DAYS - 2)
         == Tally(events, Back(StartOfDay(now), 1), Some(StartOfDay(now)))
  {
    hide BucketTally, Tally, Dates;
    var day := now / DAY_MS;
    BucketIsDay(events, now, TIMELINE_DAYS - 1);
    BucketIsDay(events, now, TIMELINE_DAYS - 2);
    Quotient(day, now % DAY_MS, now, 0);
    Quotient(day, now % DAY_MS, now, 1);
    NothingLater(events, StartOfDay(now), StartOfDay(now) + DAY_MS);
  }

  lemma {:induction false} NothingLater(events: seq<Event>, from: nat, end: nat)
    requires forall i :: 0 <= i < |events| ==> events[i].ts < end
    ensures Tally(events, from, Some(end)) == Tally(events, from, None)
  {
    hide One, Plus;
    if events != [] {
      NothingLater(events[..|events| - 1], from, end);
    }
  }
}
