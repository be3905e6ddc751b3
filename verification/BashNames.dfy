/** Bash events, their file names, and the name-based filter that stands in for reading them.

    A file name is `<timestamp>_<kind>[_<command id>]_<event id>`; the search and the
    retention loop look at names only. */
module BashNames {
  import opened Wrappers

  // ---------------------------------------------------------------------------------------
  // Python's string order, by code point
  // ---------------------------------------------------------------------------------------

  predicate Less(a: string, b: string) {
    |b| > 0 && (|a| == 0 || a[0] < b[0] || (a[0] == b[0] && Less(a[1..], b[1..])))
  }

  lemma {:induction false} LessIrreflexive(a: string)
    ensures !Less(a, a)
  {
    if |a| > 0 { LessIrreflexive(a[1..]); }
  }

  lemma {:induction false} LessTransitive(a: string, b: string, c: string)
    requires Less(a, b) && Less(b, c)
    ensures Less(a, c)
  {
    if |a| > 0 && a[0] == b[0] && b[0] == c[0] {
      LessTransitive(a[1..], b[1..], c[1..]);
    }
  }

  lemma {:induction false} LessTotal(a: string, b: string)
    ensures Less(a, b) || a == b || Less(b, a)
  {
    if |a| > 0 && |b| > 0 && a[0] == b[0] {
      LessTotal(a[1..], b[1..]);
      assert a == [a[0]] + a[1..] && b == [b[0]] + b[1..];
    }
  }

  /** Strings that start with blocks of equal length compare by the blocks first. */
  lemma {:induction false} LessByBlock(a: string, b: string, x: string, y: string)
    requires |a| == |b|
    ensures Less(a + x, b + y) <==> Less(a, b) || (a == b && Less(x, y))
    ensures a + x == b + y <==> a == b && x == y
  {
    assert (a + x)[..|a|] == a && (b + y)[..|a|] == b;
    assert (a + x)[|a|..] == x && (b + y)[|a|..] == y;
    if |a| == 0 {
      assert a + x == x && b + y == y;
    } else {
      assert (a + x)[1..] == a[1..] + x && (b + y)[1..] == b[1..] + y;
      LessByBlock(a[1..], b[1..], x, y);
      if a[0] == b[0] {
        assert a == [a[0]] + a[1..] && b == [b[0]] + b[1..];
      } else {
        assert a != b;
      }
    }
  }

  lemma PrefixOrder(a: string, b: string, x: string)
    requires |a| == |b|
    ensures Less(a + x, b) <==> Less(a, b)
  {
    LessByBlock(a, b, x, "");
    assert b + "" == b;
  }

  // ---------------------------------------------------------------------------------------
  // Timestamps
  // ---------------------------------------------------------------------------------------

  /** A UTC time with its fields as `strftime` prints them. */
  datatype Timestamp = Timestamp(year: nat, month: nat, day: nat, hour: nat, minute: nat, second: nat, micro: nat)

  predicate ValidTime(t: Timestamp) {
    && 1000 <= t.year <= 9999 && 1 <= t.month <= 12 && 1 <= t.day <= 31
    && t.hour < 24 && t.minute < 60 && t.second < 60 && t.micro < 1000000
  }

  function Fields(t: Timestamp): seq<nat> {
    [t.year, t.month, t.day, t.hour, t.minute, t.second, t.micro]
  }

  const WIDTHS: seq<nat> := [4, 2, 2, 2, 2, 2, 6]

  /** Chronological order: the first differing field decides. */
  predicate FieldsBefore(a: seq<nat>, b: seq<nat>)
    requires |a| == |b|
  {
    |a| > 0 && (a[0] < b[0] || (a[0] == b[0] && FieldsBefore(a[1..], b[1..])))
  }

  predicate Before(t: Timestamp, u: Timestamp) {
    FieldsBefore(Fields(t), Fields(u))
  }

  lemma BeforeMeans(t: Timestamp, u: Timestamp)
    ensures Before(t, u) <==>
            || t.year < u.year
            || (t.year == u.year && (t.month < u.month
            || (t.month == u.month && (t.day < u.day
            || (t.day == u.day && (t.hour < u.hour
            || (t.hour == u.hour && (t.minute < u.minute
            || (t.minute == u.minute && (t.second < u.second
            || (t.second == u.second && t.micro < u.micro)))))))))))
  {
    var a, b := Fields(t), Fields(u);
    assert a[0..] == a && b[0..] == b && a[7..] == [];
    BeforeFrom(a, b, 6);
    BeforeFrom(a, b, 5);
    BeforeFrom(a, b, 4);
    BeforeFrom(a, b, 3);
    BeforeFrom(a, b, 2);
    BeforeFrom(a, b, 1);
    BeforeFrom(a, b, 0);
  }

  lemma BeforeFrom(a: seq<nat>, b: seq<nat>, k: nat)
    requires |a| == |b| && k < |a|
    ensures FieldsBefore(a[k..], b[k..]) <==> a[k] < b[k] || (a[k] == b[k] && FieldsBefore(a[k + 1..], b[k + 1..]))
  {
    assert a[k..][1..] == a[k + 1..] && b[k..][1..] == b[k + 1..];
  }

  function Pow10(n: nat): nat {
    if n == 0 then 1 else 10 * Pow10(n - 1)
  }

  function Digit(d: nat): char
    requires d < 10
  {
    '0' + d as char
  }

  /** `n` in decimal, padded with zeros to `width` digits. */
  function Digits(n: nat, width: nat): (s: string)
    ensures |s| == width
    ensures forall i :: 0 <= i < |s| ==> '0' <= s[i] <= '9'
  {
    if width == 0 then "" else Digits(n / 10, width - 1) + [Digit(n % 10)]
  }

  lemma {:induction false} DigitsOrder(n: nat, m: nat, width: nat)
    requires n < Pow10(width) && m < Pow10(width)
    ensures Less(Digits(n, width), Digits(m, width)) <==> n < m
    ensures Digits(n, width) == Digits(m, width) <==> n == m
  {
    if width > 0 {
      DigitsOrder(n / 10, m / 10, width - 1);
      LessByBlock(Digits(n / 10, width - 1), Digits(m / 10, width - 1), [Digit(n % 10)], [Digit(m % 10)]);
      assert Digits(n, width)[..width - 1] == Digits(n / 10, width - 1);
      assert Digits(m, width)[..width - 1] == Digits(m / 10, width - 1);
      assert Digits(n, width)[width - 1] == Digit(n % 10);
      assert Digits(m, width)[width - 1] == Digit(m % 10);
    }
  }

  function Format(values: seq<nat>, widths: seq<nat>): (s: string)
    requires |values| == |widths|
    ensures forall i :: 0 <= i < |s| ==> '0' <= s[i] <= '9'
  {
    if values == [] then "" else Digits(values[0], widths[0]) + Format(values[1..], widths[1..])
  }

  predicate Fit(values: seq<nat>, widths: seq<nat>)
    requires |values| == |widths|
  {
    forall i :: 0 <= i < |values| ==> values[i] < Pow10(widths[i])
  }

  lemma {:induction false} FormatOrder(a: seq<nat>, b: seq<nat>, widths: seq<nat>)
    requires |a| == |b| == |widths| && Fit(a, widths) && Fit(b, widths)
    ensures |Format(a, widths)| == |Format(b, widths)|
    ensures Less(Format(a, widths), Format(b, widths)) <==> FieldsBefore(a, b)
    ensures Format(a, widths) == Format(b, widths) <==> a == b
  {
    if a != [] {
      FormatOrder(a[1..], b[1..], widths[1..]);
      DigitsOrder(a[0], b[0], widths[0]);
      var da, db := Digits(a[0], widths[0]), Digits(b[0], widths[0]);
      LessByBlock(da, db, Format(a[1..], widths[1..]), Format(b[1..], widths[1..]));
      assert a == [a[0]] + a[1..] && b == [b[0]] + b[1..];
    }
  }

  /** `_timestamp_to_str`: `%Y%m%d%H%M%S%f`. */
  function TimeString(t: Timestamp): string {
    Format(Fields(t), WIDTHS)
  }

  /** The number that decimal digits stand for. */
  function Number(s: string): nat
    requires forall i :: 0 <= i < |s| ==> '0' <= s[i] <= '9'
  {
    if s == "" then 0 else 10 * Number(s[..|s| - 1]) + (s[|s| - 1] - '0') as nat
  }

  lemma {:induction false} NumberOfDigits(n: nat, width: nat)
    requires n < Pow10(width)
    ensures Number(Digits(n, width)) == n
  {
    if width > 0 {
      NumberOfDigits(n / 10, width - 1);
      assert Digits(n, width)[..width - 1] == Digits(n / 10, width - 1);
    }
  }

  lemma FormatCons(v: nat, w: nat, values: seq<nat>, widths: seq<nat>)
    requires |values| == |widths|
    ensures Format([v] + values, [w] + widths) == Digits(v, w) + Format(values, widths)
  {
    assert ([v] + values)[1..] == values && ([w] + widths)[1..] == widths;
  }

  /** The printed time is a four-digit year, five two-digit fields and six digits of microseconds. */
  lemma TimeStringIs(t: Timestamp)
    ensures TimeString(t) == Digits(t.year, 4) + (Digits(t.month, 2) + (Digits(t.day, 2) + (Digits(t.hour, 2)
                             + (Digits(t.minute, 2) + (Digits(t.second, 2) + (Digits(t.micro, 6) + ""))))))
  {
    FormatCons(t.micro, 6, [], []);
    FormatCons(t.second, 2, [t.micro], [6]);
    FormatCons(t.minute, 2, [t.second, t.micro], [2, 6]);
    FormatCons(t.hour, 2, [t.minute, t.second, t.micro], [2, 2, 6]);
    FormatCons(t.day, 2, [t.hour, t.minute, t.second, t.micro], [2, 2, 2, 6]);
    FormatCons(t.month, 2, [t.day, t.hour, t.minute, t.second, t.micro], [2, 2, 2, 2, 6]);
    FormatCons(t.year, 4, [t.month, t.day, t.hour, t.minute, t.second, t.micro], [2, 2, 2, 2, 2, 6]);
    assert Fields(t) == [t.year] + [t.month, t.day, t.hour, t.minute, t.second, t.micro];
    assert WIDTHS == [4] + [2, 2, 2, 2, 2, 6];
  }

  lemma TimeFits(t: Timestamp)
    requires ValidTime(t)
    ensures Fit(Fields(t), WIDTHS)
  {
    assert Pow10(2) == 100;
    assert Pow10(4) == 100 * Pow10(2) == 10000;
    assert Pow10(6) == 100 * Pow10(4) == 1000000;
  }

  /** Comparing the printed times is comparing the times. */
  lemma TimeStringOrder(t: Timestamp, u: Timestamp)
    requires ValidTime(t) && ValidTime(u)
    ensures |TimeString(t)| == |TimeString(u)|
    ensures Less(TimeString(t), TimeString(u)) <==> Before(t, u)
    ensures TimeString(t) == TimeString(u) <==> t == u
  {
    TimeFits(t);
    TimeFits(u);
    FormatOrder(Fields(t), Fields(u), WIDTHS);
    if Fields(t) == Fields(u) {
      assert t.year == Fields(t)[0] && t.month == Fields(t)[1] && t.day == Fields(t)[2] && t.hour == Fields(t)[3];
      assert t.minute == Fields(t)[4] && t.second == Fields(t)[5] && t.micro == Fields(t)[6];
    }
  }

  // ---------------------------------------------------------------------------------------
  // Events and names
  // ---------------------------------------------------------------------------------------

  datatype BashEvent =
    | BashCommand(at: Timestamp, id: string)
    | BashOutput(at: Timestamp, id: string, commandId: string, order: int, exitCode: Option<int>,
                 stdout: Option<string>, stderr: Option<string>)
    | BashError(at: Timestamp, id: string)

  function Kind(e: BashEvent): string {
    match e
    case BashCommand(_, _) => "BashCommand"
    case BashOutput(_, _, _, _, _, _, _) => "BashOutput"
    case BashError(_, _) => "BashError"
  }

  predicate IsHex(s: string) {
    |s| == 32 && forall i :: 0 <= i < |s| ==> '0' <= s[i] <= '9' || 'a' <= s[i] <= 'f'
  }

  predicate WellFormed(e: BashEvent) {
    ValidTime(e.at) && IsHex(e.id) && (e.BashOutput? ==> IsHex(e.commandId))
  }

  function Tail(e: BashEvent): string {
    "_" + Kind(e) + (if e.BashOutput? then "_" + e.commandId else "") + "_" + e.id
  }

  /** `_get_event_filename`. */
  function FileName(e: BashEvent): string {
    TimeString(e.at) + Tail(e)
  }

  /** `s.split("_")`. */
  function Split(s: string): (parts: seq<string>)
    ensures |parts| >= 1
  {
    if s == "" then [""]
    else
      var rest := Split(s[1..]);
      if s[0] == '_' then [""] + rest else [[s[0]] + rest[0]] + rest[1..]
  }

  lemma {:induction false} SplitSegment(a: string, b: string)
    requires '_' !in a
    ensures Split(a + "_" + b) == [a] + Split(b)
  {
    var s := a + "_" + b;
    if a == "" {
      assert s[1..] == b;
    } else {
      assert s[1..] == a[1..] + "_" + b;
      SplitSegment(a[1..], b);
      assert [a[0]] + a[1..] == a;
    }
  }

  lemma {:induction false} SplitLast(a: string)
    requires '_' !in a
    ensures Split(a) == [a]
  {
    if a != "" {
      SplitLast(a[1..]);
      assert [a[0]] + a[1..] == a;
    }
  }

  lemma Regroup(a: string, b: string, c: string)
    ensures a + (b + c) == a + b + c
  {
  }

  lemma SplitThree(a: string, b: string, c: string)
    requires '_' !in a && '_' !in b && '_' !in c
    ensures Split(a + ("_" + b + "_" + c)) == [a, b, c]
  {
    Regroup("_", b, "_");
    Regroup("_", b + "_", c);
    Regroup(a, "_", b + "_" + c);
    SplitSegment(a, b + "_" + c);
    SplitSegment(b, c);
    SplitLast(c);
  }

  lemma SplitFour(a: string, b: string, c: string, d: string)
    requires '_' !in a && '_' !in b && '_' !in c && '_' !in d
    ensures Split(a + ("_" + b + ("_" + c) + "_" + d)) == [a, b, c, d]
  {
    var rest := b + ("_" + c + "_" + d);
    Regroup("_" + b, "_" + c, "_");
    Regroup("_" + b, "_" + c + "_", d);
    Regroup("_", b, "_" + c + "_" + d);
    Regroup(a, "_", rest);
    SplitSegment(a, rest);
    SplitThree(b, c, d);
  }

  lemma SplitFileName(e: BashEvent)
    requires WellFormed(e)
    ensures Split(FileName(e))
         == match e
            case BashCommand(_, _) => [TimeString(e.at), "BashCommand", e.id]
            case BashOutput(_, _, _, _, _, _, _) => [TimeString(e.at), "BashOutput", e.commandId, e.id]
            case BashError(_, _) => [TimeString(e.at), "BashError", e.id]
  {
    if e.BashOutput? {
      SplitFour(TimeString(e.at), Kind(e), e.commandId, e.id);
    } else {
      assert Tail(e) == "_" + Kind(e) + "_" + e.id;
      SplitThree(TimeString(e.at), Kind(e), e.id);
    }
  }

  // ---------------------------------------------------------------------------------------
  // Filtering on names, and on contents
  // ---------------------------------------------------------------------------------------

  datatype Query = Query(
    kind: Option<string>,
    command: Option<string>,
    gte: Option<Timestamp>,
    lt: Option<Timestamp>,
    orderGt: Option<int>,
    descending: bool)

  predicate ValidQuery(q: Query) {
    (q.gte.Some? ==> ValidTime(q.gte.value)) && (q.lt.Some? ==> ValidTime(q.lt.value))
  }

  /** What the directory scan tests, on the name alone. */
  predicate NameMatches(q: Query, name: string) {
    var parts := Split(name);
    && (q.gte.Some? ==> !Less(name, TimeString(q.gte.value)))
    && (q.lt.Some? ==> Less(name, TimeString(q.lt.value)))
    && (q.kind.Some? ==> |parts| >= 2 && parts[1] == q.kind.value)
    && (q.command.Some? ==> |parts| >= 4 && parts[2] == q.command.value)
  }

  /** What the caller asked for, on the event. */
  predicate EventMatches(q: Query, e: BashEvent) {
    && (q.gte.Some? ==> !Before(e.at, q.gte.value))
    && (q.lt.Some? ==> Before(e.at, q.lt.value))
    && (q.kind.Some? ==> Kind(e) == q.kind.value)
    && (q.command.Some? ==> e.BashOutput? && e.commandId == q.command.value)
  }

  lemma NameAgainstTime(e: BashEvent, t: Timestamp)
    requires WellFormed(e) && ValidTime(t)
    ensures Less(FileName(e), TimeString(t)) <==> Before(e.at, t)
  {
    TimeStringOrder(e.at, t);
    PrefixOrder(TimeString(e.at), TimeString(t), Tail(e));
  }

  /** The file-name index agrees with event contents, for every event and every filter. */
  lemma NameIndexAgrees(q: Query, e: BashEvent)
    requires ValidQuery(q) && WellFormed(e)
    ensures NameMatches(q, FileName(e)) <==> EventMatches(q, e)
  {
    SplitFileName(e);
    if q.gte.Some? { NameAgainstTime(e, q.gte.value); }
    if q.lt.Some? { NameAgainstTime(e, q.lt.value); }
  }

  /** Name order refines time order. */
  lemma NameOrderRefinesTime(e: BashEvent, f: BashEvent)
    requires WellFormed(e) && WellFormed(f) && Before(e.at, f.at)
    ensures Less(FileName(e), FileName(f))
  {
    TimeStringOrder(e.at, f.at);
    LessByBlock(TimeString(e.at), TimeString(f.at), Tail(e), Tail(f));
  }

  /** Events with different ids have different files. */
  lemma FileNameInjective(e: BashEvent, f: BashEvent)
    requires WellFormed(e) && WellFormed(f) && FileName(e) == FileName(f)
    ensures e.id == f.id && e.at == f.at && Kind(e) == Kind(f)
  {
    SplitFileName(e);
    SplitFileName(f);
    TimeStringOrder(e.at, f.at);
    var parts := Split(FileName(e));
    assert parts[|parts| - 1] == e.id && parts[|parts| - 1] == f.id;
    assert parts[0] == TimeString(e.at) && parts[0] == TimeString(f.at);
    assert parts[1] == Kind(e) && parts[1] == Kind(f);
  }
}
