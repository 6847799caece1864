/** The changelog side panel (app/components/Changelog.tsx): the "how long
    ago" label shown under each chunk time, and the total-count figure. The
    clock and date parsing stay outside: the label is computed from the
    difference `now - chunkTime` in milliseconds, given as an integer. */
module Changelog {
  import opened Nullable
  import DocsSlice

  datatype TimeUnit = Seconds | Minutes | Hours | Days

  /** What getTimeAgo shows: a whole number of one unit. */
  datatype Elapsed = Elapsed(amount: int, unit: TimeUnit)

  const SecondsPerMinute := 60
  const SecondsPerHour := 3600
  const SecondsPerDay := 86400

  /** `Math.floor(diffMs / 1000)`. Dafny's `/` by a positive divisor
      rounds towards minus infinity, as `Math.floor` does. */
  function DiffInSeconds(diffMs: int): (d: int)
    ensures d * 1000 <= diffMs < d * 1000 + 1000
  {
    diffMs / 1000
  }

  /** The if-chain of getTimeAgo: the first bound the difference falls
      under picks the unit; the amount is rounded down. */
  function Bucket(d: int): Elapsed
  {
    if d < SecondsPerMinute then Elapsed(d, Seconds)
    else if d < SecondsPerHour then Elapsed(d / SecondsPerMinute, Minutes)
    else if d < SecondsPerDay then Elapsed(d / SecondsPerHour, Hours)
    else Elapsed(d / SecondsPerDay, Days)
  }

  function UnitSuffix(u: TimeUnit): string
  {
    match u
    case Seconds => "s ago"
    case Minutes => "m ago"
    case Hours => "h ago"
    case Days => "d ago"
  }

  /** The template literal `${amount}<unit> ago`. */
  function Label(e: Elapsed): string
  {
    DecimalString(e.amount) + UnitSuffix(e.unit)
  }

  /** getTimeAgo, given now minus the chunk's instant, in milliseconds. */
  function TimeAgo(diffMs: int): string
  {
    Label(Bucket(DiffInSeconds(diffMs)))
  }

  /** Exactly one branch of the chain applies, and which one is decided by
      the ranges 60, 3600 and 86400 alone. */
  lemma BucketPartition(d: int)
    ensures Bucket(d).unit == Seconds <==> d < 60
    ensures Bucket(d).unit == Minutes <==> 60 <= d < 3600
    ensures Bucket(d).unit == Hours <==> 3600 <= d < 86400
    ensures Bucket(d).unit == Days <==> 86400 <= d
  {
  }

  /** Under a minute the raw seconds are shown, negative (future) ones too. */
  lemma SecondsLabel(diffMs: int)
    requires DiffInSeconds(diffMs) < 60
    ensures TimeAgo(diffMs) == DecimalString(DiffInSeconds(diffMs)) + "s ago"
  {
  }

  /** A minute up to an hour shows whole minutes, 1 to 59. */
  lemma MinutesLabel(diffMs: int)
    requires 60 <= DiffInSeconds(diffMs) < 3600
    ensures var e := Bucket(DiffInSeconds(diffMs));
      && TimeAgo(diffMs) == DecimalString(e.amount) + "m ago"
      && e.amount * 60 <= DiffInSeconds(diffMs) < e.amount * 60 + 60
      && 1 <= e.amount <= 59
  {
  }

  /** An hour up to a day shows whole hours, 1 to 23. */
  lemma HoursLabel(diffMs: int)
    requires 3600 <= DiffInSeconds(diffMs) < 86400
    ensures var e := Bucket(DiffInSeconds(diffMs));
      && TimeAgo(diffMs) == DecimalString(e.amount) + "h ago"
      && e.amount * 3600 <= DiffInSeconds(diffMs) < e.amount * 3600 + 3600
      && 1 <= e.amount <= 23
  {
  }

  /** A day or more shows whole days, at least one. */
  lemma DaysLabel(diffMs: int)
    requires 86400 <= DiffInSeconds(diffMs)
    ensures var e := Bucket(DiffInSeconds(diffMs));
      && TimeAgo(diffMs) == DecimalString(e.amount) + "d ago"
      && e.amount * 86400 <= DiffInSeconds(diffMs) < e.amount * 86400 + 86400
      && 1 <= e.amount
  {
  }

  // ---- decimal numerals, as `${n}` writes an integer

  predicate IsDigit(c: char)
  {
    '0' <= c <= '9'
  }

  predicate AllDigits(s: string)
  {
    forall i | 0 <= i < |s| :: IsDigit(s[i])
  }

  function DigitChar(n: nat): (c: char)
    requires n < 10
    ensures IsDigit(c)
  {
    ('0' as int + n) as char
  }

  function DigitValue(c: char): (n: nat)
    requires IsDigit(c)
    ensures n < 10
  {
    c as int - '0' as int
  }

  /** The decimal digits of a natural number, most significant first. */
  function Digits(n: nat): (s: string)
    ensures |s| > 0 && AllDigits(s)
    decreases n
  {
    if n < 10 then [DigitChar(n)] else Digits(n / 10) + [DigitChar(n % 10)]
  }

  /** An integer as JavaScript prints it: a minus sign, then the digits. */
  function DecimalString(n: int): (s: string)
    ensures |s| > 0
  {
    if n < 0 then "-" + Digits(-n) else Digits(n)
  }

  function ParseDigits(s: string): nat
    requires |s| > 0 && AllDigits(s)
    decreases |s|
  {
    if |s| == 1 then DigitValue(s[0])
    else 10 * ParseDigits(s[..|s| - 1]) + DigitValue(s[|s| - 1])
  }

  /** Reads an integer numeral back; None when the text is not one. */
  function ParseDecimal(s: string): Option<int>
  {
    if |s| > 1 && s[0] == '-' && AllDigits(s[1..]) then Some(-(ParseDigits(s[1..]) as int))
    else if |s| > 0 && AllDigits(s) then Some(ParseDigits(s))
    else None
  }

  /** Reads a label back into its amount and unit; None when it is not one. */
  function ParseTimeAgo(text: string): Option<Elapsed>
  {
    if |text| < 5 then None
    else
      var suffix, numeral := text[|text| - 5..], text[..|text| - 5];
      var unit :=
        if suffix == "s ago" then Some(Seconds)
        else if suffix == "m ago" then Some(Minutes)
        else if suffix == "h ago" then Some(Hours)
        else if suffix == "d ago" then Some(Days)
        else None;
      match (unit, ParseDecimal(numeral))
      case (Some(u), Some(n)) => Some(Elapsed(n, u))
      case _ => None
  }

  lemma {:induction false} DigitsRoundTrip(n: nat)
    ensures ParseDigits(Digits(n)) == n
    decreases n
  {
    if n >= 10 {
      var s := Digits(n);
      assert s[..|s| - 1] == Digits(n / 10);
      DigitsRoundTrip(n / 10);
    }
  }

  /** Printing an integer and reading it back gives the integer. */
  lemma DecimalRoundTrip(n: int)
    ensures ParseDecimal(DecimalString(n)) == Some(n)
  {
    if n < 0 {
      var s := DecimalString(n);
      assert s[1..] == Digits(-n);
      DigitsRoundTrip(-n);
    } else {
      DigitsRoundTrip(n);
    }
  }

  /** Every label getTimeAgo produces names its amount and unit without
      ambiguity: reading it back recovers exactly the bucket. */
  lemma TimeAgoReadsBack(diffMs: int)
    ensures ParseTimeAgo(TimeAgo(diffMs)) == Some(Bucket(DiffInSeconds(diffMs)))
  {
    var e := Bucket(DiffInSeconds(diffMs));
    var shown := TimeAgo(diffMs);
    var numeral := DecimalString(e.amount);
    assert shown[..|shown| - 5] == numeral;
    assert shown[|shown| - 5..] == UnitSuffix(e.unit);
    DecimalRoundTrip(e.amount);
  }

  /** The "Total Documents" figure: `.count` when the stored total is an
      object, the number itself otherwise. */
  function DisplayedTotalCount(t: DocsSlice.TotalCount): int
  {
    match t
    case CountObject(count) => count
    case Bare(n) => n
  }

  /** The panel shows the same figure whether or not the store already
      normalised the count response. */
  lemma DisplayedTotalCountNormalised(t: DocsSlice.TotalCount)
    ensures DisplayedTotalCount(DocsSlice.NormaliseTotalCount(t)) == DisplayedTotalCount(t)
    ensures DisplayedTotalCount(t) == (if t.CountObject? then t.count else t.n)
  {
  }
}
