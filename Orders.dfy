/** `generateOrder` of tests/sample-test.js: the synthetic order posted on
    each iteration, built from the virtual-user number, the iteration number
    and the wall-clock reading `Date.now()`, which is a parameter here. */
module Orders {

  import opened Wrappers
  import opened Decimal
  import opened DateFormat

  datatype Author = Author(name: string, surname: string)

  datatype Order = Order(title: string, description: string, date: string, author: Author)

  /** The multiplier that keeps the indexes of different virtual users apart. */
  const IndexStride: int := 100000

  /** The number of distinct creation days the orders cycle through. */
  const DaySpread: int := 30

  const Description: string := "Some description "

  /** JavaScript's `a % b` on integral numbers: the quotient is truncated
      toward zero, so the remainder takes the sign of `a`. */
  function JsRem(a: int, b: int): (r: int)
    requires b > 0
    ensures (a - r) % b == 0
    ensures a >= 0 ==> 0 <= r < b
    ensures a < 0 ==> -b < r <= 0
  {
    var m := if a >= 0 then a else -a;
    var r := if a >= 0 then m % b else -(m % b);
    assert a - r == b * (if a >= 0 then m / b else -(m / b));
    MultipleRem(b, if a >= 0 then m / b else -(m / b));
    r
  }

  /** A multiple of `b` leaves no remainder. */
  lemma MultipleRem(b: int, k: int)
    requires b > 0
    ensures (b * k) % b == 0
  {
    var x := b * k;
    var j := k - x / b;
    assert b * j == x % b;
  }

  /** The order's index, `vu * 100000 + iter`. */
  function Index(vu: int, iter: int): int
  {
    vu * IndexStride + iter
  }

  /** While the iteration number stays below the stride, the index encodes
      the pair: integer division and remainder take it apart again. */
  lemma IndexDecode(vu: int, iter: int)
    requires 0 <= iter < IndexStride
    ensures Index(vu, iter) / IndexStride == vu
    ensures Index(vu, iter) % IndexStride == iter
  {
    var i := Index(vu, iter);
    assert i == vu * IndexStride + iter;
  }

  /** Hence the index is unique per (virtual user, iteration) pair within
      that range. */
  lemma IndexInjective(vu1: int, iter1: int, vu2: int, iter2: int)
    requires 0 <= iter1 < IndexStride && 0 <= iter2 < IndexStride
    requires Index(vu1, iter1) == Index(vu2, iter2)
    ensures vu1 == vu2 && iter1 == iter2
  {
    IndexDecode(vu1, iter1);
    IndexDecode(vu2, iter2);
  }

  /** The range matters: the 100000th iteration of one virtual user shares
      its index with the first iteration of the next. */
  lemma IndexCollision(vu: int)
    ensures Index(vu, IndexStride) == Index(vu + 1, 0)
  {
  }

  /** Days from 2025-08-01 to a date of July or August 2025. */
  function DaysFromAugust1(d: DateTime): int
    requires d.month == 6 || d.month == 7
  {
    if d.month == 7 then d.date - 1 else d.date - 32
  }

  /** `new Date(2025, 7, 1 + (index % 30))` at local midnight. The remainder
      is truncating, so a negative index gives a day number down to -28; the
      `Date` constructor carries a day number of 0 or less into July, which
      has 31 days. */
  function CreationDate(index: int): (d: DateTime)
    ensures d.year == 2025 && d.hours == 0 && d.minutes == 0 && d.seconds == 0
    ensures (d.month == 6 || d.month == 7) && 1 <= d.date <= 31
    ensures DaysFromAugust1(d) == JsRem(index, DaySpread)
    ensures Printable(d)
  {
    var day := 1 + JsRem(index, DaySpread);
    if day >= 1 then DateTime(2025, 7, day, 0, 0, 0)
    else DateTime(2025, 6, 31 + day, 0, 0, 0)
  }

  /** For a non-negative index the day is `1 + index % 30`, in 1..30, so the
      date never leaves August 2025. */
  lemma CreationDateInAugust(index: int)
    requires index >= 0
    ensures CreationDate(index) == DateTime(2025, 7, 1 + index % DaySpread, 0, 0, 0)
    ensures 1 <= CreationDate(index).date <= 30
  {
  }

  function Title(vu: int, iter: int, now: int): string
  {
    "Title " + IntToString(vu) + "-" + IntToString(iter) + "-" + IntToString(now)
  }

  /** The order for iteration `iter` of virtual user `vu` at clock
      reading `now`. */
  function GenerateOrder(vu: int, iter: int, now: int): Order
  {
    var index := Index(vu, iter);
    Order(
      Title(vu, iter, now),
      Description,
      FormatDateTime(CreationDate(index)),
      Author("John " + IntToString(index), "Doe " + IntToString(index)))
  }

  /** Reads a '-' separator and the integer after it. */
  function ReadDashInt(s: string): Option<(int, string)>
  {
    if |s| > 0 && s[0] == '-' then ReadInt(s[1..]) else None
  }

  /** Reads a title back into the virtual user, the iteration and the clock
      reading. */
  function ParseTitle(s: string): Option<(int, int, int)>
  {
    if |s| < 6 || s[..6] != "Title " then None
    else
      match ReadInt(s[6..])
      case None => None
      case Some((vu, r1)) =>
        match ReadDashInt(r1)
        case None => None
        case Some((iter, r2)) =>
          match ReadDashInt(r2)
          case None => None
          case Some((now, r3)) => if r3 == [] then Some((vu, iter, now)) else None
  }

  lemma ReadDashIntToString(x: int, rest: string)
    requires rest == [] || !IsDigit(rest[0])
    ensures ReadDashInt("-" + IntToString(x) + rest) == Some((x, rest))
  {
    hide ReadInt, IntToString, NatToString;
    var t := "-" + IntToString(x) + rest;
    assert t[1..] == IntToString(x) + rest;
    ReadIntToString(x, rest);
  }

  /** The title can be read back, negative numbers included: a sign always
      follows a separator and a separator always follows a digit. */
  lemma TitleRoundTrip(vu: int, iter: int, now: int)
    ensures ParseTitle(Title(vu, iter, now)) == Some((vu, iter, now))
  {
    hide ReadInt, ReadDashInt, IntToString, NatToString;
    var a, b, c := IntToString(vu), IntToString(iter), IntToString(now);
    var r2 := "-" + c + [];
    var r1 := "-" + b + r2;
    var s := Title(vu, iter, now);
    assert s == "Title " + (a + r1);
    assert s[..6] == "Title " && s[6..] == a + r1;
    ReadIntToString(vu, r1);
    ReadDashIntToString(iter, r2);
    ReadDashIntToString(now, []);
  }

  /** Titles are unique per (virtual user, iteration, clock reading). */
  lemma TitleInjective(vu1: int, iter1: int, now1: int, vu2: int, iter2: int, now2: int)
    requires Title(vu1, iter1, now1) == Title(vu2, iter2, now2)
    ensures vu1 == vu2 && iter1 == iter2 && now1 == now2
  {
    TitleRoundTrip(vu1, iter1, now1);
    TitleRoundTrip(vu2, iter2, now2);
  }

  /** A fixed prefix followed by a decimal integer determines the integer. */
  lemma PrefixedIntInjective(p: string, x: int, y: int)
    requires p + IntToString(x) == p + IntToString(y)
    ensures x == y
  {
    assert (p + IntToString(x))[|p|..] == IntToString(x);
    assert (p + IntToString(y))[|p|..] == IntToString(y);
    IntToStringInjective(x, y);
  }

  /** Within the iteration range two distinct (virtual user, iteration)
      pairs get orders with distinct authors, whatever the clock says. */
  lemma AuthorsDistinct(vu1: int, iter1: int, now1: int, vu2: int, iter2: int, now2: int)
    requires 0 <= iter1 < IndexStride && 0 <= iter2 < IndexStride
    requires (vu1, iter1) != (vu2, iter2)
    ensures GenerateOrder(vu1, iter1, now1).author.name != GenerateOrder(vu2, iter2, now2).author.name
    ensures GenerateOrder(vu1, iter1, now1).author.surname != GenerateOrder(vu2, iter2, now2).author.surname
  {
    var i1, i2 := Index(vu1, iter1), Index(vu2, iter2);
    if i1 == i2 {
      IndexInjective(vu1, iter1, vu2, iter2);
    }
    if "John " + IntToString(i1) == "John " + IntToString(i2) {
      PrefixedIntInjective("John ", i1, i2);
    }
    if "Doe " + IntToString(i1) == "Doe " + IntToString(i2) {
      PrefixedIntInjective("Doe ", i1, i2);
    }
  }

  /** Author name and surname are "John " and "Doe " followed by the decimal
      index, which reads back from either of them. */
  lemma AuthorCarriesIndex(vu: int, iter: int, now: int)
    ensures var a := GenerateOrder(vu, iter, now).author;
      && a.name[..5] == "John " && ReadInt(a.name[5..]) == Some((Index(vu, iter), []))
      && a.surname[..4] == "Doe " && ReadInt(a.surname[4..]) == Some((Index(vu, iter), []))
  {
    var t := IntToString(Index(vu, iter));
    ReadIntToString(Index(vu, iter), []);
    assert t + [] == t;
    var a := GenerateOrder(vu, iter, now).author;
    assert a.name[5..] == t && a.surname[4..] == t;
  }

  /** Everything but the title is a function of (virtual user, iteration)
      alone, and the title changes with the clock. */
  lemma OrderClockOnlyInTitle(vu: int, iter: int, now1: int, now2: int)
    ensures var o1, o2 := GenerateOrder(vu, iter, now1), GenerateOrder(vu, iter, now2);
      && o1.description == o2.description == Description
      && o1.date == o2.date
      && o1.author == o2.author
      && (o1.title == o2.title <==> now1 == now2)
  {
    if Title(vu, iter, now1) == Title(vu, iter, now2) {
      TitleInjective(vu, iter, now1, vu, iter, now2);
    }
  }

  /** The date field always has the layout `DD.MM.YYYY HH:MM:SS` and reads
      back as the creation date of the order's index. */
  lemma OrderDateReadsBack(vu: int, iter: int, now: int)
    ensures HasLayout(GenerateOrder(vu, iter, now).date)
    ensures ParseDateTime(GenerateOrder(vu, iter, now).date) == Some(CreationDate(Index(vu, iter)))
  {
    FormatLayout(CreationDate(Index(vu, iter)));
    ParseFormat(CreationDate(Index(vu, iter)));
  }

  lemma FixedFieldsText()
    ensures Pad2(8) == "08" && Pad2(0) == "00" && IntToString(2025) == "2025"
  {
    Pad2Cases(8);
    Pad2Cases(0);
    assert NatToString(2) == "2";
    assert NatToString(20) == "20";
    assert NatToString(202) == "202";
    assert NatToString(2025) == "2025";
  }

  /** Midnight of an August 2025 day prints as `DD.08.2025 00:00:00`. */
  lemma AugustMidnightText(day: nat)
    ensures FormatDateTime(DateTime(2025, 7, day, 0, 0, 0)) == Pad2(day) + ".08.2025 00:00:00"
  {
    hide Pad2, NatToString, IntToString, PadStart, DigitsValue;
    FixedFieldsText();
    assert FormatDateTime(DateTime(2025, 7, day, 0, 0, 0))
      == Join(Pad2(day), "08", "2025", "00", "00", "00");
  }

  /** For a non-negative index the creation date prints as
      `DD.08.2025 00:00:00`, where DD is the two-digit day `1 + index % 30`. */
  lemma CreationDateText(index: int)
    requires index >= 0
    ensures FormatDateTime(CreationDate(index)) == Pad2(1 + index % DaySpread) + ".08.2025 00:00:00"
  {
    CreationDateInAugust(index);
    AugustMidnightText(1 + index % DaySpread);
  }

  /** The date field of an order with a non-negative index reads
      `DD.08.2025 00:00:00`, where DD is the two-digit day `1 + index % 30`,
      in 1..30. */
  lemma OrderDateText(vu: int, iter: int, now: int)
    requires Index(vu, iter) >= 0
    ensures var day := 1 + Index(vu, iter) % DaySpread;
      && 1 <= day <= 30
      && GenerateOrder(vu, iter, now).date == Pad2(day) + ".08.2025 00:00:00"
  {
    CreationDateText(Index(vu, iter));
  }

  /** Index offset 16 gives the 17th of August. */
  lemma OffsetSixteen(index: int)
    requires index >= 0 && index % DaySpread == 16
    ensures FormatDateTime(CreationDate(index)) == "17.08.2025 00:00:00"
  {
    hide Pad2, NatToString, PadStart, IntToString, FormatDateTime, CreationDate;
    CreationDateText(index);
    Pad2Cases(17);
    assert Pad2(17) == "17";
  }

  /** The decimal text of 100000. */
  lemma HundredThousandText()
    ensures IntToString(100000) == "100000"
  {
    assert NatToString(10) == "10";
    assert NatToString(100) == "100";
    assert NatToString(1000) == "1000";
    assert NatToString(10000) == "10000";
    assert NatToString(100000) == "100000";
  }

  /** The first iteration of virtual user 1 has index 100000, offset 10,
      so it is dated the 11th of August. The pair is a parameter pinned by
      `requires` rather than the literals 1 and 0, which keeps the solver
      from unfolding the decimal printer on constants. */
  lemma FirstOrderDate(vu: int, iter: int, now: int)
    requires vu == 1 && iter == 0
    ensures GenerateOrder(vu, iter, now).date == "11.08.2025 00:00:00"
  {
    hide Pad2, NatToString, PadStart, IntToString, FormatDateTime, CreationDate, Title;
    var index := Index(vu, iter);
    assert index == 100000;
    CreationDateText(index);
    assert 1 + index % DaySpread == 11;
    Pad2Cases(11);
    assert Pad2(11) == "11";
  }

  /** ... and is written by John Doe 100000 (parameters as in
      FirstOrderDate, for the same reason). */
  lemma FirstOrderAuthor(vu: int, iter: int, now: int)
    requires vu == 1 && iter == 0
    ensures GenerateOrder(vu, iter, now).author == Author("John 100000", "Doe 100000")
  {
    hide NatToString, IntToString, FormatDateTime, CreationDate, Title;
    var index := Index(vu, iter);
    assert index == 100000;
    HundredThousandText();
  }
}
