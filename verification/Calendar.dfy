/**
  The reservation calendar of the shop. Instants are nanoseconds since the Unix epoch,
  days are numbered from the epoch's day (a Thursday), and Moscow is the fixed UTC+3 zone.
 */
module Calendar {
  import opened Base

  const HOUR: int := 3_600_000_000_000
  const DAY: int := 24 * HOUR
  const MOSCOW: int := 3 * HOUR

  datatype Kind = Day | Manual | Permanent

  datatype Promotion = Promotion(id: int, title: string, discount: int, active: bool, kind: Kind,
                                 start: Option<int>, end: Option<int>,
                                 validFrom: Option<int>, createdAt: int)

  /** The calendar day an instant falls on in the zone `offset` east of UTC. */
  function DayOf(t: int, offset: int): int {
    (t + offset) / DAY
  }

  /** The instant of a clock time on a day in that zone. */
  function At(day: int, clock: int, offset: int): int {
    day * DAY + clock - offset
  }

  /** Go's time.Weekday, with Sunday as 0. */
  function Weekday(day: int): nat {
    (day + 4) % 7
  }

  function CutoffHour(day: int): int {
    if Weekday(day) == 6 || Weekday(day) == 0 then 16 else 18
  }

  /** Closing time of the shop on a Moscow day. */
  function Cutoff(day: int): int {
    At(day, CutoffHour(day) * HOUR, MOSCOW)
  }

  predicate BeforeCutoff(t: int) {
    t < Cutoff(DayOf(t, MOSCOW))
  }

  function ReservationDate(now: int): int {
    if BeforeCutoff(now) then DayOf(now, MOSCOW) else DayOf(now, MOSCOW) + 1
  }

  function ReservationDeadline(now: int): int {
    Cutoff(ReservationDate(now))
  }

  /** 03:00 on the third calendar day after `now`, in the server's zone. */
  function ReservedUntilFor(now: int, offset: int): int {
    At(DayOf(now, offset) + 3, 3 * HOUR, offset)
  }

  /** The reservation day a day promotion was entered for. */
  function PromotionDay(promo: Promotion): int {
    ReservationDate(if promo.validFrom.Some? then promo.validFrom.value else promo.createdAt)
  }

  predicate AppliesAt(promo: Promotion, now: int) {
    promo.active && (promo.kind == Day ==> PromotionDay(promo) == ReservationDate(now))
  }

  lemma DayBounds(t: int, offset: int)
    ensures At(DayOf(t, offset), 0, offset) <= t < At(DayOf(t, offset) + 1, 0, offset)
  {
  }

  lemma CutoffsIncrease(a: int, b: int)
    requires a < b
    ensures Cutoff(a) + 22 * HOUR <= Cutoff(b)
    ensures b == a + 1 ==> Cutoff(b) <= Cutoff(a) + 26 * HOUR
  {
  }

  /** The shop closes at 16:00 Moscow time on Saturdays and Sundays, else at 18:00; day 2 is a Saturday. */
  lemma ClosingTimes(day: int)
    ensures Cutoff(day) + 3 * 3_600_000_000_000 ==
            day * 86_400_000_000_000 + (if day % 7 == 2 || day % 7 == 3 then 16 else 18) * 3_600_000_000_000
  {
    assert (day + 4) % 7 == (day % 7 + 4) % 7;
  }

  /** The windows between consecutive closing times partition time, and the date names the window. */
  lemma WindowsPartitionTime(t: int, day: int)
    ensures ReservationDate(t) == day <==> Cutoff(day - 1) <= t < Cutoff(day)
  {
    var today := DayOf(t, MOSCOW);
    DayBounds(t, MOSCOW);
    CutoffsIncrease(today - 1, today);
    CutoffsIncrease(today, today + 1);
    assert Cutoff(today - 1) <= t < Cutoff(today + 1);
    var date := ReservationDate(t);
    assert Cutoff(date - 1) <= t < Cutoff(date);
    if day < date {
      if day < date - 1 {
        CutoffsIncrease(day, date - 1);
      }
    } else if date < day && date < day - 1 {
      CutoffsIncrease(date, day - 1);
    }
  }

  lemma DateIsMonotone(s: int, t: int)
    requires s <= t
    ensures ReservationDate(s) <= ReservationDate(t)
    ensures ReservationDeadline(s) <= ReservationDeadline(t)
  {
    var a, b := ReservationDate(s), ReservationDate(t);
    WindowsPartitionTime(s, a);
    WindowsPartitionTime(t, b);
    if b < a {
      if b < a - 1 {
        CutoffsIncrease(b, a - 1);
      }
      assert false;
    }
    if a < b {
      CutoffsIncrease(a, b);
    }
  }

  /**
    An active day promotion applies at exactly the instants of one window: the one that
    holds its reference instant. At all of them the pickup deadline is the window's end.
   */
  lemma DayPromotionOwnsOneWindow(promo: Promotion, now: int)
    requires promo.active && promo.kind == Day
    ensures AppliesAt(promo, now) <==> Cutoff(PromotionDay(promo) - 1) <= now < Cutoff(PromotionDay(promo))
    ensures AppliesAt(promo, now) ==> ReservationDeadline(now) == Cutoff(PromotionDay(promo))
    ensures AppliesAt(promo, if promo.validFrom.Some? then promo.validFrom.value else promo.createdAt)
  {
    WindowsPartitionTime(now, PromotionDay(promo));
  }

  /** A manual or permanent promotion applies whenever it is active, and no inactive promotion ever does. */
  lemma OnlyDayPromotionsAreBoundToADay(promo: Promotion, now: int)
    ensures !promo.active ==> !AppliesAt(promo, now)
    ensures promo.active && (promo.kind == Manual || promo.kind == Permanent) ==> AppliesAt(promo, now)
  {
  }

  /** The deadline is ahead of now by at most 26 hours. */
  lemma DeadlineBounds(now: int)
    ensures now < ReservationDeadline(now) <= now + 26 * HOUR
  {
    var date := ReservationDate(now);
    WindowsPartitionTime(now, date);
    CutoffsIncrease(date - 1, date);
  }

  /** Sunday at closing time is where the 26 hours are reached. */
  lemma DeadlineBoundIsTight()
    ensures ReservationDeadline(Cutoff(3)) == Cutoff(3) + 26 * HOUR
  {
    assert Weekday(3) == 0;
    assert CutoffHour(3) == 16 && CutoffHour(4) == 18;
  }

  /**
    An ordinary booking lives more than 51 and at most 75 hours, in any fixed-offset zone, and ends
    at 03:00 there: the only such instant in that span.
   */
  lemma BookingBounds(now: int, offset: int)
    ensures now + 51 * HOUR < ReservedUntilFor(now, offset) <= now + 75 * HOUR
    ensures (ReservedUntilFor(now, offset) + offset) % DAY == 3 * HOUR
  {
    DayBounds(now, offset);
    var day := DayOf(now, offset) + 3;
    assert ReservedUntilFor(now, offset) + offset == day * DAY + 3 * HOUR;
    assert (day * DAY + 3 * HOUR) % DAY == 3 * HOUR;
  }

  /** A day promotion only ever shortens the booking. */
  lemma DayPromotionShortensBooking(now: int, offset: int)
    ensures ReservationDeadline(now) < ReservedUntilFor(now, offset)
  {
    DeadlineBounds(now);
    BookingBounds(now, offset);
  }

  function Applicable(promos: seq<Promotion>, now: int): seq<Promotion> {
    if promos == [] then []
    else Applicable(promos[..|promos| - 1], now) +
         if AppliesAt(promos[|promos| - 1], now) then [promos[|promos| - 1]] else []
  }

  method FilterForReservation(promos: seq<Promotion>, now: int) returns (out: seq<Promotion>)
    ensures out == Applicable(promos, now)
  {
    if |promos| == 0 {
      return promos;
    }
    out := [];
    for i := 0 to |promos|
      invariant out == Applicable(promos[..i], now)
    {
      assert promos[..i + 1][..i] == promos[..i];
      if AppliesAt(promos[i], now) {
        out := out + [promos[i]];
      }
    }
    assert promos[..|promos|] == promos;
  }

  /** A promotion survives the filter iff it was given and applies, and the survivors keep their order. */
  lemma {:induction false} ApplicableMembers(promos: seq<Promotion>, now: int) returns (from: seq<nat>)
    ensures forall promo :: promo in Applicable(promos, now) <==> promo in promos && AppliesAt(promo, now)
    ensures |from| == |Applicable(promos, now)|
    ensures forall i | 0 <= i < |from| :: from[i] < |promos| && Applicable(promos, now)[i] == promos[from[i]]
    ensures forall i, j | 0 <= i < j < |from| :: from[i] < from[j]
  {
    if promos == [] {
      from := [];
    } else {
      var front, last := promos[..|promos| - 1], promos[|promos| - 1];
      from := ApplicableMembers(front, now);
      assert promos == front + [last];
      if AppliesAt(last, now) {
        from := from + [|promos| - 1];
      }
    }
  }
}
