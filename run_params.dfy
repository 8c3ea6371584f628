/** The run-parameter checks at the start of src/main.py: the end date is
    clamped to yesterday, the start date defaults to a year before it, the
    range and the news count are checked, and the initial portfolio is
    built. Instants are whole seconds; a date given on the command line is
    the midnight that starts its day, numbered in days. */
module RunParams {
  import opened Wrappers

  const Day: int := 86400

  /** The calendar day an instant falls on. */
  function DayOf(t: int): int {
    t / Day
  }

  /** The parsed command line; `None` is an option left out. */
  datatype CliArgs = CliArgs(
    startDate: Option<int>,
    endDate: Option<int>,
    numOfNews: Option<int>,
    initialCapital: Option<real>,
    initialPosition: Option<int>)

  const DefaultNumOfNews: int := 5
  const DefaultInitialCapital: real := 100000.0
  const DefaultInitialPosition: int := 0

  datatype Portfolio = Portfolio(cash: real, stock: int)

  /** What is handed to the pipeline. */
  datatype Params = Params(start: int, end: int, numOfNews: int, portfolio: Portfolio)

  /** The `ValueError`s raised, in the order the checks run. */
  datatype ArgError = StartAfterEnd | TooFewNews | TooManyNews

  /** The end instant: yesterday at this time of day, or the given date
      when that is earlier. */
  function EndTime(args: CliArgs, now: int): (t: int)
    ensures t <= now - Day
    ensures args.endDate.None? ==> t == now - Day
    ensures args.endDate.Some? ==> t <= args.endDate.value * Day
    ensures t == now - Day || (args.endDate.Some? && t == args.endDate.value * Day)
  {
    var yesterday := now - Day;
    match args.endDate
    case None => yesterday
    case Some(d) => if d * Day < yesterday then d * Day else yesterday
  }

  /** The start instant: the given date, or 365 days before the end. */
  function StartTime(args: CliArgs, now: int): (t: int)
    ensures args.startDate.None? ==> EndTime(args, now) - t == 365 * Day
    ensures args.startDate.Some? ==> t == args.startDate.value * Day
  {
    match args.startDate
    case None => EndTime(args, now) - 365 * Day
    case Some(d) => d * Day
  }

  function Validate(args: CliArgs, now: int): (r: Result<Params, ArgError>)
    ensures r.Success? <==>
              && StartTime(args, now) <= EndTime(args, now)
              && 1 <= args.numOfNews.GetOr(DefaultNumOfNews) <= 100
    ensures StartTime(args, now) > EndTime(args, now) ==> r == Failure(StartAfterEnd)
    ensures StartTime(args, now) <= EndTime(args, now) && args.numOfNews.GetOr(DefaultNumOfNews) < 1
            ==> r == Failure(TooFewNews)
    ensures StartTime(args, now) <= EndTime(args, now) && args.numOfNews.GetOr(DefaultNumOfNews) > 100
            ==> r == Failure(TooManyNews)
    ensures r.Success? ==>
              && r.value.start == StartTime(args, now)
              && r.value.end == EndTime(args, now)
              && r.value.start <= r.value.end <= now - Day
              && r.value.numOfNews == args.numOfNews.GetOr(DefaultNumOfNews)
              && r.value.portfolio == Portfolio(args.initialCapital.GetOr(DefaultInitialCapital),
                                                args.initialPosition.GetOr(DefaultInitialPosition))
  {
    var end := EndTime(args, now);
    var start := StartTime(args, now);
    var news := args.numOfNews.GetOr(DefaultNumOfNews);
    if start > end then Failure(StartAfterEnd)
    else if news < 1 then Failure(TooFewNews)
    else if news > 100 then Failure(TooManyNews)
    else Success(Params(start, end, news,
                        Portfolio(args.initialCapital.GetOr(DefaultInitialCapital),
                                  args.initialPosition.GetOr(DefaultInitialPosition))))
  }

  /** The end date written for the pipeline is never later than
      yesterday's date. */
  lemma EndDayBeforeToday(args: CliArgs, now: int)
    ensures DayOf(EndTime(args, now)) <= DayOf(now) - 1
  {
    var t := EndTime(args, now);
    assert DayOf(now - Day) == DayOf(now) - 1;
    DayOfMonotone(t, now - Day);
  }

  lemma {:induction false} DayOfMonotone(a: int, b: int)
    requires a <= b
    ensures DayOf(a) <= DayOf(b)
  {
    var qa, qb := a / Day, b / Day;
    assert a == qa * Day + a % Day && 0 <= a % Day < Day;
    assert b == qb * Day + b % Day && 0 <= b % Day < Day;
  }

  /** The default start date is exactly 365 calendar days before the end
      date. */
  lemma DefaultStartIsAYearEarlier(args: CliArgs, now: int)
    requires args.startDate.None?
    ensures DayOf(StartTime(args, now)) == DayOf(EndTime(args, now)) - 365
  {
    var e := EndTime(args, now);
    assert StartTime(args, now) == e + (-365) * Day;
  }

  /** With every option left out, the run covers the year up to
      yesterday, reads five news articles, and starts with 100000 in cash
      and no stock. */
  lemma DefaultsAccepted(now: int)
    ensures var r := Validate(CliArgs(None, None, None, None, None), now);
            && r.Success?
            && r.value.end == now - Day
            && r.value.start == now - 366 * Day
            && r.value.numOfNews == 5
            && r.value.portfolio == Portfolio(100000.0, 0)
  {
  }
}
