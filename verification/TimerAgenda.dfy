/** Why the timer wheel is right: the wheel refines an agenda, a map from each
    pending timer to the one second it fires at, over every run. */
module TimerAgenda {
  import opened TimerWheel

  // ----- when a timer should fire -----

  /** The digit sums that `add_timer_core` reduces modulo their base without
      carrying into the next digit. */
  function CarrySecond(now: nat, delay: nat): nat {
    if now % 60 + delay % 60 >= 60 then 1 else 0
  }

  function CarryMinute(now: nat, delay: nat): nat {
    if now / 60 % 60 + delay / 60 % 60 >= 60 then 1 else 0
  }

  function CarryHour(now: nat, delay: nat): nat {
    if now / 3600 % 24 + delay / 3600 % 24 >= 24 then 1 else 0
  }

  /** The seconds lost to carries below the level a delay is filed at. */
  function Lost(now: nat, delay: nat): nat {
    match FileLevel(delay)
    case Second => 0
    case Minute => 60 * CarrySecond(now, delay)
    case Hour => 60 * CarrySecond(now, delay) + 3600 * CarryMinute(now, delay)
    case Day => 60 * CarrySecond(now, delay) + 3600 * CarryMinute(now, delay) + 86400 * CarryHour(now, delay)
  }

  /** The second a timer added at `now` fires at. A zero delay waits a whole turn
      of the seconds row; a delay of 31 days or more loses whole turns of the days row. */
  function Due(now: nat, delay: nat): int {
    if delay == 0 then now + 60
    else now + delay - Lost(now, delay) - 2592000 * (if delay >= 86400 then (delay / 86400 - 1) / 30 else 0)
  }

  /** The delay is positive and below 31 days, and no digit below the level it is filed
      at carries when it is added to the time. */
  predicate OnTime(now: nat, delay: nat) {
    && 0 < delay < 2678400
    && (delay >= 60 ==> CarrySecond(now, delay) == 0)
    && (delay >= 3600 ==> CarryMinute(now, delay) == 0)
    && (delay >= 86400 ==> CarryHour(now, delay) == 0)
  }

  // ----- digits of a number of seconds -----

  lemma Decompose(t: nat)
    ensures t == 60 * (t / 60) + t % 60
    ensures t / 60 == 60 * (t / 3600) + t / 60 % 60
    ensures t / 3600 == 24 * (t / 86400) + t / 3600 % 24
  {
    assert t / 60 / 60 == t / 3600;
    assert t / 3600 / 24 == t / 86400;
  }

  lemma Compose(t: nat, d: nat, h: nat, m: nat, s: nat)
    requires t == 86400 * d + 3600 * h + 60 * m + s
    requires h < 24 && m < 60 && s < 60
    ensures t / 60 == 1440 * d + 60 * h + m && t % 60 == s
    ensures t / 3600 == 24 * d + h && t / 60 % 60 == m
    ensures t / 86400 == d && t / 3600 % 24 == h
  {
  }

  /** A sum of two digits with its carry thrown away. */
  function Wrap(base: nat, sum: nat): nat {
    if sum >= base then sum - base else sum
  }

  lemma DigitSum60(x: nat, y: nat)
    ensures (x + y) % 60 == (x % 60 + y) % 60 == Wrap(60, x % 60 + y % 60)
  {
    var carry := if x % 60 + y % 60 >= 60 then 1 else 0;
    assert x + y == 60 * (x / 60 + y / 60 + carry) + Wrap(60, x % 60 + y % 60);
    assert x % 60 + y == 60 * (y / 60 + carry) + Wrap(60, x % 60 + y % 60);
  }

  lemma WrapDigits(a: nat, b: nat)
    requires a < 60 && b < 60
    ensures (a + b) % 60 == Wrap(60, a + b)
  {
  }

  lemma DigitSum24(x: nat, y: nat)
    ensures (x + y) % 24 == (x % 24 + y) % 24 == Wrap(24, x % 24 + y % 24)
  {
    var carry := if x % 24 + y % 24 >= 24 then 1 else 0;
    assert x + y == 24 * (x / 24 + y / 24 + carry) + Wrap(24, x % 24 + y % 24);
    assert x % 24 + y == 24 * (y / 24 + carry) + Wrap(24, x % 24 + y % 24);
  }

  lemma DigitSum30(x: nat, y: nat)
    ensures (x + y) % 30 == (x % 30 + y) % 30 == Wrap(30, x % 30 + y % 30)
  {
    var carry := if x % 30 + y % 30 >= 30 then 1 else 0;
    assert x + y == 30 * (x / 30 + y / 30 + carry) + Wrap(30, x % 30 + y % 30);
    assert x % 30 + y == 30 * (y / 30 + carry) + Wrap(30, x % 30 + y % 30);
  }

  // ----- the firing law -----

  /** For every delay whatever: a timer fires at least one tick after it is added,
      never late unless its delay is zero, and to the second exactly when it is
      positive, below 31 days and adds up without a carry below its filing level. */
  lemma FiringLaw(now: nat, delay: nat)
    ensures now < Due(now, delay)
    ensures delay > 0 ==> Due(now, delay) <= now + delay
    ensures Due(now, delay) == now + delay <==> OnTime(now, delay)
    ensures 0 < delay < 60 ==> OnTime(now, delay)
  {
    DueUnits(now, delay);
  }

  /** A timer of 90 seconds, added 30 seconds after the start of a minute, fires after 30. */
  lemma FiresEarly(now: nat)
    requires now % 60 == 30
    ensures Due(now, 90) == now + 30
  {
  }

  lemma DueUnits(now: nat, delay: nat)
    ensures var due := Due(now, delay);
            var level := FileLevel(delay);
            && due > now
            && Unit(level, now) < Unit(level, due) <= Unit(level, now) + Size(level)
  {
    match FileLevel(delay) {
      case Second =>
      case Minute => DueMinute(now, delay);
      case Hour => DueHour(now, delay);
      case Day => DueDay(now, delay);
    }
  }

  /** The digit of a sum, without the carry from below. */
  function DigitOfSum(level: Level, now: nat, delay: nat): nat {
    match level
    case Second => Wrap(60, now % 60 + delay % 60)
    case Minute => Wrap(60, now / 60 % 60 + delay / 60 % 60)
    case Hour => Wrap(24, now / 3600 % 24 + delay / 3600 % 24)
    case Day => Wrap(30, now / 86400 % 30 + delay / 86400 % 30)
  }

  lemma SlotForDigits(level: Level, now: nat, delay: nat)
    ensures SlotFor(level, Digit(level, now), delay) == DigitOfSum(level, now, delay)
  {
    match level {
      case Second => WrapDigits(now % 60, delay % 60);
      case Minute => DigitSum60(now / 60, delay / 60);
      case Hour => DigitSum24(now / 3600, delay / 3600);
      case Day => DigitSum30(now / 86400, delay / 86400);
    }
  }

  /** The due second has, from the filing level down, exactly the digits that
      `add_timer_core` writes into the slot fields. */
  lemma DueDigit(now: nat, delay: nat, level: Level)
    requires Rank(level) <= Rank(FileLevel(delay))
    ensures Due(now, delay) >= 0 && DigitsMatch(now, delay, Due(now, delay), level)
  {
    SlotForDigits(level, now, delay);
    match FileLevel(delay) {
      case Second => DueSecond(now, delay);
      case Minute => DueMinute(now, delay);
      case Hour => DueHour(now, delay);
      case Day => DueDay(now, delay);
    }
  }

  ghost predicate DigitsMatch(now: nat, delay: nat, due: nat, level: Level) {
    Digit(level, due) == SlotFor(level, Digit(level, now), delay)
  }

  lemma DueSecond(now: nat, delay: nat)
    requires FileLevel(delay) == Second
    ensures var due := Due(now, delay);
            && due > now
            && due % 60 == DigitOfSum(Second, now, delay)
  {
    DigitSum60(now, Due(now, delay) - now);
  }

  lemma DueMinute(now: nat, delay: nat)
    requires FileLevel(delay) == Minute
    ensures var due := Due(now, delay);
            && due > now
            && due / 60 == now / 60 + delay / 60
            && due / 60 % 60 == DigitOfSum(Minute, now, delay)
            && due % 60 == DigitOfSum(Second, now, delay)
            && 1 <= delay / 60 < 60
  {
    Decompose(now);
    Decompose(delay);
    DigitSum60(now / 60, delay / 60);
    ComposeMinute(Due(now, delay), now / 60 + delay / 60, DigitOfSum(Second, now, delay));
  }

  lemma ComposeMinute(t: nat, q: nat, s: nat)
    requires t == 60 * q + s && s < 60
    ensures t / 60 == q && t % 60 == s
  {
  }

  lemma DueHour(now: nat, delay: nat)
    requires FileLevel(delay) == Hour
    ensures var due := Due(now, delay);
            && due > now
            && due / 3600 == now / 3600 + delay / 3600
            && due / 3600 % 24 == DigitOfSum(Hour, now, delay)
            && due / 60 % 60 == DigitOfSum(Minute, now, delay)
            && due % 60 == DigitOfSum(Second, now, delay)
            && 1 <= delay / 3600 < 24
  {
    Decompose(now);
    Decompose(delay);
    DigitSum24(now / 3600, delay / 3600);
    ComposeHour(Due(now, delay), now / 3600 + delay / 3600,
      DigitOfSum(Minute, now, delay), DigitOfSum(Second, now, delay));
  }

  lemma ComposeHour(t: nat, q: nat, m: nat, s: nat)
    requires t == 3600 * q + 60 * m + s && m < 60 && s < 60
    ensures t / 3600 == q && t / 60 % 60 == m && t % 60 == s
  {
    assert t / 60 == 60 * q + m;
  }

  lemma DueDay(now: nat, delay: nat)
    requires FileLevel(delay) == Day
    ensures var due := Due(now, delay);
            && due > now
            && due / 86400 == now / 86400 + (delay / 86400 - 1) % 30 + 1
            && due / 86400 % 30 == DigitOfSum(Day, now, delay)
            && due / 3600 % 24 == DigitOfSum(Hour, now, delay)
            && due / 60 % 60 == DigitOfSum(Minute, now, delay)
            && due % 60 == DigitOfSum(Second, now, delay)
            && delay / 86400 >= 1
  {
    var d := now / 86400 + (delay / 86400 - 1) % 30 + 1;
    DueDayValue(now, delay);
    DueDayDigit(now, delay);
    Compose(Due(now, delay), d,
      DigitOfSum(Hour, now, delay), DigitOfSum(Minute, now, delay), DigitOfSum(Second, now, delay));
  }

  lemma DueDayValue(now: nat, delay: nat)
    requires FileLevel(delay) == Day
    ensures Due(now, delay) == 86400 * (now / 86400 + (delay / 86400 - 1) % 30 + 1)
      + 3600 * DigitOfSum(Hour, now, delay) + 60 * DigitOfSum(Minute, now, delay) + DigitOfSum(Second, now, delay)
    ensures Due(now, delay) > now
  {
    Decompose(now);
    Decompose(delay);
    var k := delay / 86400 - 1;
    assert k == 30 * (k / 30) + k % 30;
  }

  lemma DueDayDigit(now: nat, delay: nat)
    requires FileLevel(delay) == Day
    ensures (now / 86400 + (delay / 86400 - 1) % 30 + 1) % 30 == DigitOfSum(Day, now, delay)
  {
    DigitSum30(now / 86400, delay / 86400);
    DigitSum30(now / 86400, (delay / 86400 - 1) % 30 + 1);
    DigitSum30(1, delay / 86400 - 1);
  }
}
