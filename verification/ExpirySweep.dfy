/**
 The expiry sweep of the certificate database (do_updatedb in ca.c): rows of valid
 certificates whose time is past are marked. Times are strings; UTC times have a two-digit
 year, read as section 4.1.2.5.1 of RFC 5280 says.
 */
module ExpirySweep {

  // ----- Times

  predicate Digit(c: char) {
    '0' <= c <= '9'
  }

  predicate Digits(s: string) {
    forall k | 0 <= k < |s| :: Digit(s[k])
  }

  function Value(s: string): (v: nat)
    requires Digits(s)
  {
    if |s| == 0 then 0 else 10 * Value(s[..|s| - 1]) + (s[|s| - 1] - '0') as nat
  }

  /** YYMMDDHHMMSSZ */
  predicate Utc(s: string) {
    |s| == 13 && s[12] == 'Z' && Digits(s[..12])
  }

  /** CCYYMMDDHHMMSSZ */
  predicate Generalized(s: string) {
    |s| == 15 && s[14] == 'Z' && Digits(s[..14])
  }

  /** The year of the century, or the century. */
  function FirstTwo(s: string): nat
    requires Utc(s) || Generalized(s)
  {
    assert forall k | 0 <= k < 2 :: s[..2][k] == s[..|s| - 1][k];
    Value(s[..2])
  }

  /** Where YY is 50 or more the year is 19YY, and where it is less than 50 it is 20YY. */
  function UtcYear(s: string): nat
    requires Utc(s)
  {
    var yy := FirstTwo(s);
    if yy >= 50 then 1900 + yy else 2000 + yy
  }

  /** The number that is read as year, month, day, hour, minute and second. */
  function UtcInstant(s: string): nat
    requires Utc(s)
  {
    assert Digits(s[2..12]) by {
      assert forall k | 0 <= k < 10 :: s[2..12][k] == s[..12][k + 2];
    }
    UtcYear(s) * 1_00_00_00_00_00 + Value(s[2..12])
  }

  /** The same for a generalized time, which has all four digits of the year. */
  function GeneralizedYear(s: string): nat
    requires Generalized(s)
  {
    assert forall k | 0 <= k < 4 :: s[..4][k] == s[..14][k];
    Value(s[..4])
  }

  function GeneralizedInstant(s: string): nat
    requires Generalized(s)
  {
    assert forall k | 0 <= k < 10 :: s[4..14][k] == s[..14][k + 4];
    GeneralizedYear(s) * 1_00_00_00_00_00 + Value(s[4..14])
  }

  /** The first twelve digits, which is as far as times of the two forms can be compared digit by digit. */
  function FirstTwelve(s: string): nat
    requires Utc(s) || Generalized(s)
  {
    assert forall k | 0 <= k < 12 :: s[..12][k] == s[..|s| - 1][k];
    Value(s[..12])
  }

  // ----- Comparing strings

  /** strcmp is not positive; a char compares as its code. */
  predicate Leq(a: string, b: string)
    decreases |a|
  {
    |a| == 0 || (|b| > 0 && (a[0] < b[0] || (a[0] == b[0] && Leq(a[1..], b[1..]))))
  }

  /** strncmp against "49" over two characters is not positive. */
  predicate UpTo49(s: string) {
    Leq(if |s| <= 2 then s else s[..2], "49")
  }

  /** The test of the loop: the century flag, and within a century the strings. */
  predicate Expired(exp: string, now: string) {
    if UpTo49(exp) == UpTo49(now) then Leq(exp, now) else !UpTo49(exp) && UpTo49(now)
  }

  lemma {:induction false} ValueBelow(s: string)
    requires Digits(s)
    ensures Value(s) < Power(|s|)
  {
    if |s| > 0 {
      ValueBelow(s[..|s| - 1]);
    }
  }

  function Power(n: nat): nat {
    if n == 0 then 1 else 10 * Power(n - 1)
  }

  /** The first digit counts most. */
  lemma {:induction false} ValueFirst(s: string)
    requires Digits(s) && |s| > 0
    ensures Value(s) == (s[0] - '0') as nat * Power(|s| - 1) + Value(s[1..])
  {
    var d := (s[0] - '0') as nat;
    if |s| == 1 {
      assert s[..0] == "" && s[1..] == "";
    } else {
      var init, p := s[..|s| - 1], Power(|s| - 2);
      ValueFirst(init);
      assert init[1..] == s[1..][..|s| - 2] && init[0] == s[0];
      TenTimes(d, p, Value(init[1..]));
    }
  }

  lemma TenTimes(d: nat, p: nat, v: nat)
    ensures 10 * (d * p + v) == d * (10 * p) + 10 * v
  {
  }

  lemma Leading(d: nat, e: nat, p: nat, u: nat, v: nat)
    requires u < p && v < p
    ensures d * p + u < e * p + v <==> d < e || (d == e && u < v)
    ensures d * p + u == e * p + v <==> d == e && u == v
  {
    if d < e {
      assert (d + 1) * p <= e * p;
    } else if e < d {
      assert (e + 1) * p <= d * p;
    }
  }

  /** For digits of one length, the order of strings is the order of numbers. */
  lemma {:induction false} LeqIsValue(a: string, b: string, x: string, y: string)
    requires Digits(a) && Digits(b) && |a| == |b|
    ensures Leq(a + x, b + y) <==> Value(a) < Value(b) || (a == b && Leq(x, y))
    ensures a == b <==> Value(a) == Value(b)
    decreases |a|
  {
    if |a| == 0 {
      assert a + x == x && b + y == y;
    } else {
      ValueFirst(a);
      ValueFirst(b);
      ValueBelow(a[1..]);
      ValueBelow(b[1..]);
      LeqIsValue(a[1..], b[1..], x, y);
      Leading((a[0] - '0') as nat, (b[0] - '0') as nat, Power(|a| - 1), Value(a[1..]), Value(b[1..]));
      SameTail(a, b);
      LeqStep(a, b, x, y);
    }
  }

  lemma SameTail(a: string, b: string)
    requires |a| == |b| > 0
    ensures a == b <==> a[0] == b[0] && a[1..] == b[1..]
  {
    assert a == [a[0]] + a[1..] && b == [b[0]] + b[1..];
  }

  lemma LeqStep(a: string, b: string, x: string, y: string)
    requires |a| > 0 && |b| > 0
    ensures Leq(a + x, b + y) <==> a[0] < b[0] || (a[0] == b[0] && Leq(a[1..] + x, b[1..] + y))
  {
    assert (a + x)[1..] == a[1..] + x && (b + y)[1..] == b[1..] + y;
  }

  // ----- What the test means

  lemma Parts(s: string)
    requires Utc(s)
    ensures Digits(s[..2]) && Digits(s[2..12]) && s == s[..2] + s[2..12] + "Z"
    ensures s == s[..2] + (s[2..12] + "Z") && |s[2..12]| == 10
  {
    assert forall k | 0 <= k < 2 :: s[..2][k] == s[..12][k];
    assert forall k | 0 <= k < 10 :: s[2..12][k] == s[..12][k + 2];
  }

  lemma UpTo49Means(s: string, rest: string)
    requires |s| == 2 && Digits(s)
    ensures UpTo49(s + rest) <==> Value(s) <= 49
  {
    assert (s + rest)[..2] == s;
    ValueFirst(s);
    assert s[1..] == [s[1]] && s[1..][..0] == "";
    assert s + "" == s && "49" + "" == "49";
    ValueFirst("49");
    assert "49"[1..] == "9" && "9"[..0] == "";
    LeqIsValue(s, "49", "", "");
  }

  /** For UTC times the test is chronological: at or before now, over the whole of 1950 to 2049. */
  lemma UtcChronological(exp: string, now: string)
    requires Utc(exp) && Utc(now)
    ensures Expired(exp, now) <==> UtcInstant(exp) <= UtcInstant(now)
  {
    Parts(exp);
    Parts(now);
    var a, b, x, y := exp[..2], now[..2], exp[2..12], now[2..12];
    UpTo49Means(a, x + "Z");
    UpTo49Means(b, y + "Z");
    LeqIsValue(a, b, x + "Z", y + "Z");
    LeqIsValue(x, y, "Z", "Z");
    TwoDigits(a);
    TwoDigits(b);
    TenDigits(x);
    TenDigits(y);
  }

  lemma TwoDigits(s: string)
    requires Digits(s) && |s| == 2
    ensures Value(s) < 100
  {
    ValueBelow(s);
    assert Power(2) == 100;
  }

  lemma TenDigits(s: string)
    requires Digits(s) && |s| == 10
    ensures Value(s) < 1_00_00_00_00_00
  {
    ValueBelow(s);
    assert Power(5) == 100000;
    assert Power(10) == 1_00_00_00_00_00;
  }

  /**
   A generalized time has four digits of year, of which the test takes the century for the
   year: from 2000 on, it marks every row whose century is below now's year of the century.
   */
  lemma GeneralizedMisread(exp: string, now: string)
    requires Generalized(exp) && Utc(now)
    ensures var century, year := FirstTwo(exp), FirstTwo(now);
            century <= 49 ==>
              (Expired(exp, now) <==> year <= 49 && (century < year || (century == year && Leq(exp[2..], now[2..]))))
  {
    var a, b, x, y := exp[..2], now[..2], exp[2..], now[2..];
    assert exp == a + x && now == b + y;
    assert forall k | 0 <= k < 2 :: a[k] == exp[..14][k] && b[k] == now[..12][k];
    UpTo49Means(a, x);
    UpTo49Means(b, y);
    LeqIsValue(a, b, x, y);
  }

  /** Every UTC time is before 2050. */
  lemma UtcIsEarlier(u: string, g: string)
    requires Utc(u) && Generalized(g) && GeneralizedYear(g) >= 2050
    ensures UtcInstant(u) < GeneralizedInstant(g)
  {
    Parts(u);
    TwoDigits(u[..2]);
    TenDigits(u[2..12]);
  }

  /** Which side of the century flag a time is on. */
  lemma FlagOf(s: string)
    requires Utc(s) || Generalized(s)
    ensures UpTo49(s) <==> FirstTwo(s) <= 49
  {
    assert forall k | 0 <= k < 2 :: s[..2][k] == s[..|s| - 1][k];
    assert s == s[..2] + s[2..];
    UpTo49Means(s[..2], s[2..]);
  }

  /** The two forms compare by their first twelve digits, and then by a digit against the Z. */
  lemma LeqMixed(exp: string, now: string)
    requires Generalized(exp) && Utc(now)
    ensures Leq(exp, now) <==> FirstTwelve(exp) <= FirstTwelve(now)
  {
    assert forall k | 0 <= k < 12 :: exp[..12][k] == exp[..|exp| - 1][k] && now[..12][k] == now[..|now| - 1][k];
    assert exp == exp[..12] + exp[12..] && now == now[..12] + now[12..];
    LeqIsValue(exp[..12], now[..12], exp[12..], now[12..]);
    assert exp[..14][12] == exp[12..][0];
  }

  /** When the test marks a row with a generalized time. */
  lemma GeneralizedExpired(exp: string, now: string)
    requires Generalized(exp) && Utc(now)
    ensures Expired(exp, now) <==>
            if FirstTwo(exp) <= 49 then FirstTwo(now) <= 49 && FirstTwelve(exp) <= FirstTwelve(now)
            else FirstTwo(now) <= 49 || FirstTwelve(exp) <= FirstTwelve(now)
  {
    FlagOf(exp);
    FlagOf(now);
    LeqMixed(exp, now);
  }

  /** The twelve digits after the century. */
  function LastTwelve(s: string): nat
    requires Generalized(s)
  {
    assert forall k | 0 <= k < 12 :: s[2..14][k] == s[..14][k + 2];
    Value(s[2..14])
  }

  /** The century that the two digits of now's year belong to. */
  function CenturyOf(now: string): nat
    requires Utc(now)
  {
    if FirstTwo(now) >= 50 then 19 else 20
  }

  lemma UtcSplits(s: string)
    requires Utc(s)
    ensures FirstTwo(s) * 1_00_00_00_00_00 <= FirstTwelve(s) < (FirstTwo(s) + 1) * 1_00_00_00_00_00 && FirstTwo(s) < 100
    ensures UtcInstant(s) == CenturyOf(s) * 1_00_00_00_00_00_00 + FirstTwelve(s)
  {
    Parts(s);
    ValueConcat(s[..2], s[2..12]);
    assert s[..2] + s[2..12] == s[..12];
    TwoDigits(s[..2]);
    TenDigits(s[2..12]);
    PowerOfTen();
  }

  lemma GeneralizedSplits(s: string)
    requires Generalized(s)
    ensures LastTwelve(s) < 1_00_00_00_00_00_00
    ensures GeneralizedInstant(s) == FirstTwo(s) * 1_00_00_00_00_00_00 + LastTwelve(s)
  {
    YearThenRest(s);
    ValueConcat(s[..2], s[2..4]);
    ValueConcat(s[2..4], s[4..14]);
    assert s[2..4] + s[4..14] == s[2..14];
    TwoDigits(s[2..4]);
    TenDigits(s[4..14]);
    PowerOfTen();
    assert Power(2) == 100;
    assert GeneralizedYear(s) == FirstTwo(s) * 100 + Value(s[2..4]);
  }

  lemma YearThenRest(s: string)
    requires Generalized(s)
    ensures Digits(s[..2]) && Digits(s[2..4]) && Digits(s[4..14])
    ensures s[..4] == s[..2] + s[2..4]
  {
    assert forall k | 0 <= k < 2 :: s[..2][k] == s[..14][k];
    assert forall k | 0 <= k < 2 :: s[2..4][k] == s[..14][k + 2];
    assert forall k | 0 <= k < 10 :: s[4..14][k] == s[..14][k + 4];
  }

  lemma Leads(s: string)
    requires Generalized(s)
    ensures FirstTwo(s) * 1_00_00_00_00_00 <= FirstTwelve(s) < (FirstTwo(s) + 1) * 1_00_00_00_00_00
  {
    YearThenRest(s);
    assert forall k | 0 <= k < 10 :: s[2..12][k] == s[..14][k + 2];
    ValueConcat(s[..2], s[2..12]);
    assert s[..2] + s[2..12] == s[..12];
    TenDigits(s[2..12]);
    PowerOfTen();
  }

  lemma PowerOfTen()
    ensures Power(10) == 1_00_00_00_00_00
  {
    assert Power(5) == 100000;
  }

  lemma {:induction false} ValueConcat(a: string, b: string)
    requires Digits(a) && Digits(b)
    ensures Digits(a + b) && Value(a + b) == Value(a) * Power(|b|) + Value(b)
    decreases |b|
  {
    if |b| == 0 {
      assert a + b == a;
    } else {
      var init := b[..|b| - 1];
      ValueConcat(a, init);
      assert (a + b)[..|a + b| - 1] == a + init;
      TenTimes(Value(a), Power(|init|), Value(init));
    }
  }

  /** A generalized time is past exactly if its century is, or in now's century its other digits are no greater. */
  lemma PastByCentury(exp: string, now: string)
    requires Generalized(exp) && Utc(now)
    ensures GeneralizedInstant(exp) <= UtcInstant(now) <==>
            FirstTwo(exp) < CenturyOf(now)
            || (FirstTwo(exp) == CenturyOf(now) && LastTwelve(exp) <= FirstTwelve(now))
  {
    GeneralizedSplits(exp);
    UtcSplits(now);
  }

  /**
   Any row with a generalized time, which an end date given with four digits of year
   becomes, and any UTC time. The test, which takes the century for a year, is right about
   it exactly as follows: for a century to come, if it does not mark the row; for a century
   past, if it does; and in now's own century, if the digits after the century compare with
   now's as the test finds the digits from the century on to do.
   */
  lemma GeneralizedExactly(exp: string, now: string)
    requires Generalized(exp) && Utc(now)
    ensures var century, year := FirstTwo(exp), FirstTwo(now);
            (Expired(exp, now) <==> GeneralizedInstant(exp) <= UtcInstant(now)) <==>
              if century > 49 then year >= 50 && FirstTwelve(now) < FirstTwelve(exp)
              else if century > CenturyOf(now) then year >= 50 || FirstTwelve(now) < FirstTwelve(exp)
              else if century < CenturyOf(now) then year <= 49 && FirstTwelve(exp) <= FirstTwelve(now)
              else LastTwelve(exp) <= FirstTwelve(now) <==> year <= 49 && FirstTwelve(exp) <= FirstTwelve(now)
  {
    GeneralizedExpired(exp, now);
    PastByCentury(exp, now);
  }

  /** From 2050 on, when a generalized time is what the standard asks for, no row is past. */
  lemma GeneralizedFrom2050(exp: string, now: string)
    requires Generalized(exp) && GeneralizedYear(exp) >= 2050 && Utc(now)
    ensures (Expired(exp, now) <==> GeneralizedInstant(exp) <= UtcInstant(now)) <==>
            if FirstTwo(exp) <= 49 then FirstTwo(now) >= 50 || FirstTwelve(now) < FirstTwelve(exp)
            else FirstTwo(now) >= 50 && FirstTwelve(now) < FirstTwelve(exp)
  {
    UtcIsEarlier(now, exp);
    GeneralizedExpired(exp, now);
  }

  /** In the century from 2000, and outside 2020, the test does not look at the row: it marks all of them from 2021 on. */
  lemma GeneralizedCentury(exp: string, now: string)
    requires Generalized(exp) && FirstTwo(exp) == 20 && Utc(now) && UtcYear(now) != 2020
    ensures Expired(exp, now) <==> 2021 <= UtcYear(now) <= 2049
    ensures var past := GeneralizedInstant(exp) <= UtcInstant(now);
            (Expired(exp, now) <==> past) <==> (past <==> 2021 <= UtcYear(now) <= 2049)
  {
    GeneralizedExpired(exp, now);
    Leads(exp);
    UtcSplits(now);
  }

  /** An end date of 2030, given with four digits of year: expired in 2025. */
  lemma EndDateMisread()
    ensures var exp, now := "20300101000000Z", "250101000000Z";
            Generalized(exp) && Utc(now) && Expired(exp, now) && UtcInstant(now) < GeneralizedInstant(exp)
  {
    var exp, now := "20300101000000Z", "250101000000Z";
    assert Generalized(exp) && Utc(now);
    TwoDigitsOf('2', '0');
    TwoDigitsOf('2', '5');
    TwoDigitsOf('3', '0');
    assert exp[..2] == "20" && now[..2] == "25" && exp[..4] == "20" + "30" && exp[2..4] == "30";
    ValueConcat("20", "30");
    assert Power(2) == 100;
    GeneralizedCentury(exp, now);
    Parts(now);
    TenDigits(now[2..12]);
  }

  lemma TwoDigitsOf(c: char, d: char)
    requires Digit(c) && Digit(d)
    ensures Digits([c, d]) && Value([c, d]) == (c - '0') as nat * 10 + (d - '0') as nat
  {
    assert [c, d][..1] == [c] && [c][..0] == [];
    assert Value([c]) == (c - '0') as nat;
  }

  /** The first date that must be given with four digits: from 2021 on, in any month, it counts as expired. */
  lemma FirstGeneralized(now: string)
    requires Utc(now) && now[2] <= '1'
    ensures Expired("20500101000000Z", now) <==> 2021 <= UtcYear(now) <= 2049
  {
    var exp := "20500101000000Z";
    Parts(now);
    TwoDigits(now[..2]);
    assert exp[..2] == "20" && exp[2..] == "500101000000Z" && Digits("20");
    ValueFirst("20");
    assert "20"[1..] == "0" && "0"[..0] == "";
    assert Value("0") == 0 && Power(1) == 10;
    GeneralizedMisread(exp, now);
  }

  // ----- The sweep

  /** A row of the database; its type is a C string that is overwritten in place. */
  class Row {
    const typ: array<char>
    var expDate: string
    var others: seq<string>

    constructor (typ: array<char>, expDate: string, others: seq<string>)
      ensures this.typ == typ && this.expDate == expDate && this.others == others
    {
      this.typ, this.expDate, this.others := typ, expDate, others;
    }
  }

  /** What a row holds. */
  datatype Entry = Entry(typ: seq<char>, expDate: string, others: seq<string>)

  ghost function Types(rows: seq<Row>): set<array<char>>
    reads rows
  {
    set r <- rows :: r.typ
  }

  ghost function Contents(rows: seq<Row>): (entries: seq<Entry>)
    reads rows, Types(rows)
    ensures |entries| == |rows|
    ensures forall i | 0 <= i < |rows| ::
              entries[i] == Entry(rows[i].typ[..], rows[i].expDate, rows[i].others)
  {
    if |rows| == 0 then []
    else
      var r := rows[|rows| - 1];
      Contents(rows[..|rows| - 1]) + [Entry(r.typ[..], r.expDate, r.others)]
  }

  /** Each row has a type of its own, which is not empty. */
  ghost predicate Apart(rows: seq<Row>) {
    && (forall i | 0 <= i < |rows| :: rows[i].typ.Length >= 2)
    && (forall i, k | 0 <= i < k < |rows| :: rows[i].typ != rows[k].typ)
  }

  predicate Valid(e: Entry) {
    |e.typ| >= 2 && e.typ[0] == 'V'
  }

  predicate Due(e: Entry, now: string) {
    Valid(e) && Expired(e.expDate, now)
  }

  function Marked(e: Entry): Entry
    requires Valid(e)
  {
    e.(typ := ['E', '\0'] + e.typ[2..])
  }

  /** A row after the sweep: only the type of a row that is due changes. */
  function Swept(e: Entry, now: string): Entry {
    if Due(e, now) then Marked(e) else e
  }

  /** How many of the first n rows are due. */
  function CountDue(entries: seq<Entry>, n: nat, now: string): nat
    requires n <= |entries|
  {
    if n == 0 then 0 else CountDue(entries, n - 1, now) + if Due(entries[n - 1], now) then 1 else 0
  }

  // ----- The sweep by the clock

  /** The time of a valid row is at or before now. */
  predicate PastDue(e: Entry, now: string)
    requires Utc(now) && (Valid(e) ==> Utc(e.expDate))
  {
    Valid(e) && UtcInstant(e.expDate) <= UtcInstant(now)
  }

  predicate AllUtc(entries: seq<Entry>, now: string) {
    Utc(now) && forall i | 0 <= i < |entries| && Valid(entries[i]) :: Utc(entries[i].expDate)
  }

  function CountPastDue(entries: seq<Entry>, n: nat, now: string): nat
    requires n <= |entries| && AllUtc(entries, now)
  {
    if n == 0 then 0 else CountPastDue(entries, n - 1, now) + if PastDue(entries[n - 1], now) then 1 else 0
  }

  /** With UTC times, the rows that are due are the valid ones whose time is at or before now. */
  lemma DueIsPastDue(e: Entry, now: string)
    requires Utc(now) && (Valid(e) ==> Utc(e.expDate))
    ensures Due(e, now) <==> PastDue(e, now)
  {
    if Valid(e) {
      UtcChronological(e.expDate, now);
    }
  }

  lemma {:induction false} CountsAgree(entries: seq<Entry>, n: nat, now: string)
    requires n <= |entries| && AllUtc(entries, now)
    ensures CountDue(entries, n, now) == CountPastDue(entries, n, now)
  {
    if n > 0 {
      CountsAgree(entries, n - 1, now);
      DueIsPastDue(entries[n - 1], now);
    }
  }

  /** One round of the loop; whether the row is marked. */
  method Mark(rrow: Row, aY2k: bool, now: string, ghost e: Entry) returns (marked: bool)
    requires rrow.typ.Length >= 2 && aY2k == UpTo49(now)
    requires e == Entry(rrow.typ[..], rrow.expDate, rrow.others)
    modifies rrow.typ
    ensures marked == Due(e, now)
    ensures Entry(rrow.typ[..], rrow.expDate, rrow.others) == Swept(e, now)
  {
    marked := false;
    if rrow.typ[0] == 'V' {
      var dbY2k := UpTo49(rrow.expDate);
      if dbY2k == aY2k {
        if Leq(rrow.expDate, now) {
          rrow.typ[0], rrow.typ[1] := 'E', '\0';
          marked := true;
        }
      } else if !dbY2k && aY2k {
        rrow.typ[0], rrow.typ[1] := 'E', '\0';
        marked := true;
      }
    }
  }

  /** The loop of do_updatedb. */
  method SweepRows(rows: seq<Row>, now: string) returns (cnt: nat)
    requires Apart(rows)
    modifies Types(rows)
    ensures forall i | 0 <= i < |rows| :: Contents(rows)[i] == Swept(old(Contents(rows))[i], now)
    ensures cnt == CountDue(old(Contents(rows)), |rows|, now)
  {
    cnt := 0;
    ghost var before := Contents(rows);
    var aY2k := UpTo49(now);
    for i := 0 to |rows|
      invariant forall k | 0 <= k < i :: Entry(rows[k].typ[..], rows[k].expDate, rows[k].others) == Swept(before[k], now)
      invariant forall k | i <= k < |rows| :: Entry(rows[k].typ[..], rows[k].expDate, rows[k].others) == before[k]
      invariant cnt == CountDue(before, i, now)
    {
      assert rows[i] in rows;
      var marked := Mark(rows[i], aY2k, now, before[i]);
      if marked {
        cnt := cnt + 1;
      }
    }
  }

  /** What a sweep leaves, and how many rows it marks by the clock. */
  lemma SweptByClock(entries: seq<Entry>, swept: seq<Entry>, now: string)
    requires |swept| == |entries| && forall i | 0 <= i < |entries| :: |entries[i].typ| >= 2
    requires forall i | 0 <= i < |entries| :: swept[i] == Swept(entries[i], now)
    ensures forall i | 0 <= i < |entries| ::
              var e := entries[i];
              swept[i] == if e.typ[0] == 'V' && Expired(e.expDate, now)
                          then Entry(['E', '\0'] + e.typ[2..], e.expDate, e.others) else e
    ensures AllUtc(entries, now) ==>
              && CountDue(entries, |entries|, now) == CountPastDue(entries, |entries|, now)
              && forall i | 0 <= i < |entries| ::
                   var e := entries[i];
                   swept[i] == if PastDue(e, now) then Entry(['E', '\0'] + e.typ[2..], e.expDate, e.others) else e
  {
    if AllUtc(entries, now) {
      CountsAgree(entries, |entries|, now);
      forall i | 0 <= i < |entries|
        ensures Due(entries[i], now) <==> PastDue(entries[i], now)
      {
        DueIsPastDue(entries[i], now);
      }
    }
  }

  method DoUpdatedb(rows: seq<Row>, now: string) returns (cnt: nat)
    requires Apart(rows)
    modifies Types(rows)
    ensures forall i | 0 <= i < |rows| ::
              var e := old(Contents(rows))[i];
              && |e.typ| >= 2
              && Contents(rows)[i] == if e.typ[0] == 'V' && Expired(e.expDate, now)
                                      then Entry(['E', '\0'] + e.typ[2..], e.expDate, e.others) else e
    ensures cnt == CountDue(old(Contents(rows)), |rows|, now)
    ensures AllUtc(old(Contents(rows)), now) ==>
              && cnt == CountPastDue(old(Contents(rows)), |rows|, now)
              && forall i | 0 <= i < |rows| ::
                   var e := old(Contents(rows))[i];
                   Contents(rows)[i] == if PastDue(e, now) then Entry(['E', '\0'] + e.typ[2..], e.expDate, e.others)
                                        else e
  {
    ghost var before := Contents(rows);
    assert forall i | 0 <= i < |rows| :: |before[i].typ| >= 2;
    cnt := SweepRows(rows, now);
    SweptByClock(before, Contents(rows), now);
  }
}
