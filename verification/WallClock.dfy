/**
 Wall-clock time as `time.Format` prints it with the layout
 `2006-01-02-15-04-05`: a year of four digits and five fields of two.
 */
module WallClock {
  import opened Text

  datatype Fields = Fields(year: nat, month: nat, day: nat, hour: nat, minute: nat, second: nat)

  /** What a wall clock shows. Years after 9999 would print with five digits. */
  type Clock = t: Fields |
    t.year <= 9999 && 1 <= t.month <= 12 && 1 <= t.day <= 31 && t.hour <= 23 && t.minute <= 59 && t.second <= 59
    witness Fields(0, 1, 1, 0, 0, 0)

  /** The order of time: the first field that differs decides. */
  predicate Before(a: Clock, b: Clock) {
    if a.year != b.year then a.year < b.year
    else if a.month != b.month then a.month < b.month
    else if a.day != b.day then a.day < b.day
    else if a.hour != b.hour then a.hour < b.hour
    else if a.minute != b.minute then a.minute < b.minute
    else a.second < b.second
  }

  function Digit(d: nat): (c: char)
    requires d <= 9
    ensures c != '-' && c != '@' && c != '/' && c != '.'
  {
    (48 + d) as char
  }

  function Two(n: nat): (s: string)
    requires n <= 99
    ensures |s| == 2 && Free('-', s) && Free('@', s)
  {
    [Digit(n / 10), Digit(n % 10)]
  }

  function Four(n: nat): (s: string)
    requires n <= 9999
    ensures |s| == 4 && Free('-', s) && Free('@', s)
  {
    Two(n / 100) + Two(n % 100)
  }

  const WIDTH := 19

  function Format(t: Clock): (s: string)
    ensures |s| == WIDTH
  {
    Four(t.year) + ("-" + (Two(t.month) + ("-" + (Two(t.day) + ("-" +
    (Two(t.hour) + ("-" + (Two(t.minute) + ("-" + Two(t.second))))))))))
  }

  lemma FormatFree(t: Clock)
    ensures Free('/', Format(t))
  {
    assert Free('/', Two(t.month)) && Free('/', Two(t.day));
    assert Free('/', Two(t.hour)) && Free('/', Two(t.minute)) && Free('/', Two(t.second));
    assert Free('/', Four(t.year));
  }

  lemma LeOne(c: char, d: char)
    ensures Le([c], [d]) <==> c <= d
  {
    assert [c][1..] == "" && [d][1..] == "";
  }

  lemma TwoOrder(a: nat, b: nat)
    requires a <= 99 && b <= 99
    ensures Le(Two(a), Two(b)) <==> a <= b
    ensures Two(a) == Two(b) <==> a == b
  {
    var s, t := Two(a), Two(b);
    assert s[1..] == [Digit(a % 10)] && t[1..] == [Digit(b % 10)];
    LeOne(Digit(a % 10), Digit(b % 10));
    assert a == a / 10 * 10 + a % 10 && b == b / 10 * 10 + b % 10;
    if s == t {
      assert s[0] == t[0] && s[1] == t[1];
    }
  }

  lemma FourOrder(a: nat, b: nat)
    requires a <= 9999 && b <= 9999
    ensures Le(Four(a), Four(b)) <==> a <= b
    ensures Four(a) == Four(b) <==> a == b
  {
    TwoOrder(a / 100, b / 100);
    TwoOrder(a % 100, b % 100);
    LeFixedWidth(Two(a / 100), Two(a % 100), Two(b / 100), Two(b % 100));
    if Four(a) == Four(b) {
      LeReflexive(Four(a));
      LeFixedWidth(Two(b / 100), Two(b % 100), Two(a / 100), Two(a % 100));
    }
  }

  /** One field followed by a dash and the rest: the field decides unless it is equal. */
  lemma FieldOrder(a: string, x: string, b: string, y: string)
    requires |a| == |b|
    ensures Le(a + ("-" + x), b + ("-" + y)) <==> (Lt(a, b) || (a == b && Le(x, y)))
    ensures a + ("-" + x) == b + ("-" + y) <==> a == b && x == y
  {
    LeFixedWidth(a, "-" + x, b, "-" + y);
    LeCommonPrefix("-", x, y);
    var s, t := a + ("-" + x), b + ("-" + y);
    assert a == s[..|a|] && b == t[..|a|];
    assert x == s[|a| + 1..] && y == t[|a| + 1..];
  }

  lemma TwoFieldOrder(m: nat, x: string, n: nat, y: string)
    requires m <= 99 && n <= 99
    ensures Le(Two(m) + ("-" + x), Two(n) + ("-" + y)) <==> (m < n || (m == n && Le(x, y)))
    ensures Two(m) + ("-" + x) == Two(n) + ("-" + y) <==> m == n && x == y
  {
    TwoOrder(m, n);
    FieldOrder(Two(m), x, Two(n), y);
  }

  /** Sorting the printed timestamps sorts them by time, and no two times print alike. */
  lemma FormatOrder(a: Clock, b: Clock)
    ensures Le(Format(a), Format(b)) <==> a == b || Before(a, b)
    ensures Format(a) == Format(b) <==> a == b
  {
    TwoOrder(a.second, b.second);
    var a4, b4 := Two(a.second), Two(b.second);
    TwoFieldOrder(a.minute, a4, b.minute, b4);
    var a3, b3 := Two(a.minute) + ("-" + a4), Two(b.minute) + ("-" + b4);
    TwoFieldOrder(a.hour, a3, b.hour, b3);
    var a2, b2 := Two(a.hour) + ("-" + a3), Two(b.hour) + ("-" + b3);
    TwoFieldOrder(a.day, a2, b.day, b2);
    var a1, b1 := Two(a.day) + ("-" + a2), Two(b.day) + ("-" + b2);
    TwoFieldOrder(a.month, a1, b.month, b1);
    var a0, b0 := Two(a.month) + ("-" + a1), Two(b.month) + ("-" + b1);
    FourOrder(a.year, b.year);
    FieldOrder(Four(a.year), a0, Four(b.year), b0);
  }
}
