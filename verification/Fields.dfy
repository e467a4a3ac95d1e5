/**
 Splitting, trimming and decimal numbers, as `strings.Split`, `strings.Trim`,
 `strconv.Atoi` and the shell's `read -a` do them.
 */
module Fields {
  import opened Text
  import opened WallClock

  datatype Option<+T> = None | Some(value: T)

  // ----- split and join -----

  /** The length of the part before the first `c`. */
  function Cut(s: string, c: char): (i: nat)
    ensures i <= |s| && Free(c, s[..i]) && (i < |s| ==> s[i] == c)
  {
    if s == "" || s[0] == c then 0
    else
      var i := Cut(s[1..], c);
      assert s[..i + 1] == [s[0]] + s[1..][..i];
      i + 1
  }

  /** strings.Split for a separator of one character */
  function Split(s: string, c: char): (r: seq<string>)
    ensures |r| >= 1
    decreases |s|
  {
    var i := Cut(s, c);
    if i == |s| then [s] else [s[..i]] + Split(s[i + 1..], c)
  }

  /** strings.Join for a separator of one character */
  function Join(parts: seq<string>, c: char): string
    requires parts != []
  {
    if |parts| == 1 then parts[0] else parts[0] + [c] + Join(parts[1..], c)
  }

  lemma {:induction false} SplitParts(s: string, c: char)
    ensures forall k :: 0 <= k < |Split(s, c)| ==> Free(c, Split(s, c)[k])
    decreases |s|
  {
    var i := Cut(s, c);
    if i < |s| {
      var rest := Split(s[i + 1..], c);
      SplitParts(s[i + 1..], c);
      forall k | 0 <= k < |rest| + 1 ensures Free(c, ([s[..i]] + rest)[k]) {
        assert k > 0 ==> ([s[..i]] + rest)[k] == rest[k - 1];
      }
    } else {
      assert s[..i] == s;
    }
  }

  /** Joining undoes splitting. */
  lemma {:induction false} JoinSplit(s: string, c: char)
    ensures Join(Split(s, c), c) == s
    decreases |s|
  {
    var i := Cut(s, c);
    if i < |s| {
      JoinSplit(s[i + 1..], c);
      JoinFirst(s[..i], Split(s[i + 1..], c), c);
      Around(s, i);
    }
  }

  lemma Around(s: string, i: nat)
    requires i < |s|
    ensures s[..i] + [s[i]] + s[i + 1..] == s
  {
  }

  lemma JoinFirst(first: string, rest: seq<string>, c: char)
    requires rest != []
    ensures Join([first] + rest, c) == first + [c] + Join(rest, c)
  {
    assert ([first] + rest)[1..] == rest;
  }

  lemma CutAt(p: string, c: char, rest: string)
    requires Free(c, p)
    ensures Cut(p + [c] + rest, c) == |p|
  {
    var s := p + [c] + rest;
    assert s[|p|] == c;
    assert forall j :: 0 <= j < |p| ==> s[j] == p[j];
    var i := Cut(s, c);
    assert forall j :: 0 <= j < i ==> s[j] == s[..i][j] && s[j] != c;
  }

  /** Splitting undoes joining. */
  lemma {:induction false} SplitJoin(parts: seq<string>, c: char)
    requires parts != [] && forall i :: 0 <= i < |parts| ==> Free(c, parts[i])
    ensures Split(Join(parts, c), c) == parts
  {
    var s, p := Join(parts, c), parts[0];
    if |parts| == 1 {
      assert Cut(s, c) == |s| by {
        assert forall j :: 0 <= j < |s| ==> s[j] != c;
      }
    } else {
      CutAt(p, c, Join(parts[1..], c));
      SplitJoin(parts[1..], c);
      assert s[..|p|] == p && s[|p| + 1..] == Join(parts[1..], c);
    }
  }

  // ----- trim -----

  function TrimLeft(s: string): string {
    if s != "" && s[0] == ' ' then TrimLeft(s[1..]) else s
  }

  function TrimRight(s: string): string {
    if s != "" && s[|s| - 1] == ' ' then TrimRight(s[..|s| - 1]) else s
  }

  /** strings.Trim(s, " ") */
  function Trim(s: string): string {
    TrimRight(TrimLeft(s))
  }

  // ----- decimal numbers -----

  predicate IsDigit(c: char) {
    '0' <= c <= '9'
  }

  predicate AllDigits(s: string) {
    forall i :: 0 <= i < |s| ==> IsDigit(s[i])
  }

  function Decimal(s: string): nat
    requires AllDigits(s)
  {
    if s == "" then 0 else Decimal(s[..|s| - 1]) * 10 + (s[|s| - 1] as int - 48)
  }

  /** strconv.Itoa for numbers that are not negative */
  function Itoa(n: nat): (s: string)
    ensures s != "" && AllDigits(s)
  {
    if n < 10 then [Digit(n)] else Itoa(n / 10) + [Digit(n % 10)]
  }

  const TWO63: int := 0x8000_0000_0000_0000

  /** strconv.Atoi with 64-bit integers: a sign, digits, and no overflow */
  function Atoi(s: string): Option<int> {
    var signed := s != "" && (s[0] == '+' || s[0] == '-');
    var d := if signed then s[1..] else s;
    if d == "" || !AllDigits(d) then None
    else
      var v: int := Decimal(d);
      if signed && s[0] == '-' then
        if v <= TWO63 then Some(-v) else None
      else
        if v < TWO63 then Some(v) else None
  }

  lemma {:induction false} DecimalItoa(n: nat)
    ensures Decimal(Itoa(n)) == n
  {
    if n < 10 {
      assert Itoa(n)[..0] == "";
    } else {
      DecimalItoa(n / 10);
      var s := Itoa(n);
      assert s[..|s| - 1] == Itoa(n / 10);
    }
  }

  /** No leading zeros: with DecimalItoa this leaves one text for each number. */
  lemma {:induction false} ItoaStart(n: nat)
    ensures n > 0 ==> Itoa(n)[0] != '0'
    ensures Itoa(0) == "0"
  {
    if n >= 10 {
      ItoaStart(n / 10);
    }
  }

  /** An integer as people write it. */
  function Signed(n: int): string {
    if n < 0 then "-" + Itoa(-n) else Itoa(n)
  }

  /** Every 64-bit integer reads back. */
  lemma AtoiSigned(n: int)
    requires -TWO63 <= n < TWO63
    ensures Atoi(Signed(n)) == Some(n)
  {
    var m: nat := if n < 0 then -n else n;
    DecimalItoa(m);
    assert IsDigit(Itoa(m)[0]);
    if n < 0 {
      assert Signed(n)[1..] == Itoa(m);
    }
  }

  lemma DigitsAreFree(s: string, c: char)
    requires AllDigits(s) && !IsDigit(c)
    ensures Free(c, s)
  {
  }

  /** The texts that strconv.Atoi takes: an optional sign, digits, no overflow. */
  ghost predicate IsInteger(s: string, v: int) {
    exists sign: string, d: string :: s == sign + d && IsSigned(sign, d, v)
  }

  ghost predicate IsSigned(sign: string, d: string, v: int) {
    && (sign == "" || sign == "+" || sign == "-") && d != "" && AllDigits(d)
    && v == (if sign == "-" then -(Decimal(d) as int) else Decimal(d)) && -TWO63 <= v < TWO63
  }

  /** Such a text is read as its value, and every other text is refused. */
  lemma AtoiExactly(s: string, v: int)
    ensures Atoi(s) == Some(v) <==> IsInteger(s, v)
  {
    if Atoi(s) == Some(v) {
      var signed := s[0] == '+' || s[0] == '-';
      var sign, d := if signed then s[..1] else "", if signed then s[1..] else s;
      assert s == sign + d && IsSigned(sign, d, v);
    }
    if sign, d :| s == sign + d && IsSigned(sign, d, v) {
      SignedReads(sign, d, v);
    }
  }

  lemma SignedReads(sign: string, d: string, v: int)
    requires IsSigned(sign, d, v)
    ensures Atoi(sign + d) == Some(v)
  {
    var s := sign + d;
    assert IsDigit(d[0]);
    if sign == "" {
      assert s == d;
    } else {
      assert s[0] == sign[0] && s[1..] == d;
    }
  }

  // ----- printed times -----

  lemma DecimalTwoDigits(n: nat)
    requires n <= 99
    ensures AllDigits(Two(n)) && Decimal(Two(n)) == n
  {
    var s := Two(n);
    assert s[..1] == [Digit(n / 10)] && [Digit(n / 10)][..0] == "";
    assert Decimal([Digit(n / 10)]) == n / 10;
  }

  lemma DecimalFourDigits(n: nat)
    requires n <= 9999
    ensures AllDigits(Four(n)) && Decimal(Four(n)) == n
  {
    var s, a, b := Four(n), Two(n / 100), Two(n % 100);
    DecimalTwoDigits(n / 100);
    DecimalTwoDigits(n % 100);
    assert s == a + b && s[..3] == a + [b[0]] && s[..3][..2] == a;
    assert b[..1] == [b[0]] && [b[0]][..0] == "";
    assert Decimal([b[0]]) == b[0] as int - 48;
  }

  /** The six numbers of a printed time. */
  function TimeParts(t: Clock): seq<string> {
    [Four(t.year), Two(t.month), Two(t.day), Two(t.hour), Two(t.minute), Two(t.second)]
  }

  lemma FormatIsJoined(t: Clock)
    ensures Format(t) == Join(TimeParts(t), '-')
  {
    var p := TimeParts(t);
    JoinFirst(p[4], [p[5]], '-');
    JoinFirst(p[3], [p[4]] + [p[5]], '-');
    JoinFirst(p[2], [p[3]] + ([p[4]] + [p[5]]), '-');
    JoinFirst(p[1], [p[2]] + ([p[3]] + ([p[4]] + [p[5]])), '-');
    JoinFirst(p[0], [p[1]] + ([p[2]] + ([p[3]] + ([p[4]] + [p[5]]))), '-');
    assert p == [p[0]] + ([p[1]] + ([p[2]] + ([p[3]] + ([p[4]] + [p[5]]))));
  }

  /** What is printed is the time: split at the dashes it gives six numbers in digits, of
      four digits for the year and two each for month, day, hour, minute and second. */
  lemma FormatReads(t: Clock)
    ensures var p := Split(Format(t), '-');
      && |p| == 6 && (forall i :: 0 <= i < 6 ==> AllDigits(p[i]) && |p[i]| == if i == 0 then 4 else 2)
      && Decimal(p[0]) == t.year && Decimal(p[1]) == t.month && Decimal(p[2]) == t.day
      && Decimal(p[3]) == t.hour && Decimal(p[4]) == t.minute && Decimal(p[5]) == t.second
  {
    FormatIsJoined(t);
    DecimalFourDigits(t.year);
    DecimalTwoDigits(t.month);
    DecimalTwoDigits(t.day);
    DecimalTwoDigits(t.hour);
    DecimalTwoDigits(t.minute);
    DecimalTwoDigits(t.second);
    SplitJoin(TimeParts(t), '-');
  }
}
