/**
 * Shard names of the index lifecycle manager: the hour-bucket name
 * `<base>-YYYY-MM-DD-HH.log`, the search for `index-(\d{4})-(\d{2})-(\d{2})-\d{2}`
 * that recovers a shard's date, the age test built on it, and the
 * `<base>*.log` glob that finds shards at startup.
 */
module ShardNames {
  import opened Wrappers
  import opened Decimal
  import opened Calendar
  import opened Errors

  /** The local-time fields of `time.Now()` that name the current hour bucket. */
  datatype HourStamp = HourStamp(year: nat, month: nat, day: nat, hour: nat)

  /** What a clock reading can produce, with the year in the four digits the date pattern reads. */
  predicate WellFormed(t: HourStamp) {
    t.year < 10000 && 1 <= t.month <= 12 && 1 <= t.day <= 31 && t.hour < 24
  }

  /** The `2006-01-02-15` layout: zero-padded year, month, day and hour. */
  function HourDigits(t: HourStamp): string {
    Padded(t.year, 4) + "-" + Padded(t.month, 2) + "-" + Padded(t.day, 2) + "-" + Padded(t.hour, 2)
  }

  /** getHourlyIndexName: `<base>-YYYY-MM-DD-HH.log`. */
  function HourlyName(base: string, t: HourStamp): string {
    base + "-" + HourDigits(t) + ".log"
  }

  // ---------------------------------------------------------------------------
  // The date pattern `index-(\d{4})-(\d{2})-(\d{2})-\d{2}`

  /** The pattern as a template of fixed length: `#` stands for one ASCII digit. */
  const Template: string := "index-####-##-##-##"
  const MatchLen: nat := 19

  predicate Fits(c: char, t: char) {
    if t == '#' then IsDigit(c) else c == t
  }

  /** The pattern matches `s` starting at position `i`. */
  predicate MatchesAt(s: string, i: nat) {
    i + MatchLen <= |s| && forall j :: 0 <= j < MatchLen ==> Fits(s[i + j], Template[j])
  }

  ghost predicate HasMatch(s: string) {
    exists i: nat :: i < |s| && MatchesAt(s, i)
  }

  /** The leftmost position at or after `from` where the pattern matches, as the regexp engine reports it. */
  function FindMatch(s: string, from: nat): (r: Option<nat>)
    ensures r.Some? ==> from <= r.value && MatchesAt(s, r.value)
    ensures r.Some? ==> forall i: nat :: from <= i < r.value ==> !MatchesAt(s, i)
    ensures r.None? <==> forall i: nat :: from <= i ==> !MatchesAt(s, i)
    decreases |s| - from
  {
    if from + MatchLen > |s| then None
    else if MatchesAt(s, from) then Some(from)
    else FindMatch(s, from + 1)
  }

  /** The calendar date a shard name carries, as the three capture groups give it. */
  datatype ShardDate = ShardDate(year: nat, month: nat, day: nat)

  lemma GroupsAreDigits(s: string, i: nat)
    requires MatchesAt(s, i)
    ensures AllDigits(s[i + 6..i + 10]) && AllDigits(s[i + 11..i + 13]) && AllDigits(s[i + 14..i + 16])
  {
    var year, month, day := s[i + 6..i + 10], s[i + 11..i + 13], s[i + 14..i + 16];
    forall k | 0 <= k < 4 ensures IsDigit(year[k]) {
      assert Fits(s[i + (6 + k)], Template[6 + k]);
    }
    forall k | 0 <= k < 2 ensures IsDigit(month[k]) && IsDigit(day[k]) {
      assert Fits(s[i + (11 + k)], Template[11 + k]);
      assert Fits(s[i + (14 + k)], Template[14 + k]);
    }
  }

  /** The year, month and day groups of the match at `i`, read with strconv.Atoi. */
  function DateAt(s: string, i: nat): ShardDate
    requires MatchesAt(s, i)
  {
    GroupsAreDigits(s, i);
    ShardDate(ParseDigits(s[i + 6..i + 10]), ParseDigits(s[i + 11..i + 13]), ParseDigits(s[i + 14..i + 16]))
  }

  /** The date part of isOlderThan: the groups of the leftmost match, or "invalid filename format". */
  function ParseShardDate(name: string): (r: Result<ShardDate, IlmError>)
    ensures r.Err? <==> !HasMatch(name)
    ensures r.Err? ==> r.error == InvalidFilenameFormat
    ensures r.Ok? ==> exists i: nat :: MatchesAt(name, i) && r.value == DateAt(name, i)
                                      && forall k: nat :: k < i ==> !MatchesAt(name, k)
  {
    match FindMatch(name, 0)
    case None => Err(InvalidFilenameFormat)
    case Some(i) => Ok(DateAt(name, i))
  }

  /**
   * isOlderThan: whether more than `age` nanoseconds separate `now` from
   * midnight UTC of the date in the name. The hour digits are not read.
   */
  function IsOlderThan(name: string, age: int, now: int): Result<bool, IlmError> {
    match ParseShardDate(name)
    case Err(e) => Err(e)
    case Ok(d) => Ok(Elapsed(now, MidnightUtc(d.year, d.month, d.day)) > age)
  }

  /** `filepath.Glob(base + "*.log")`: `*` stands for any run of characters other than the separator. */
  predicate GlobMatches(base: string, path: string) {
    |path| >= |base| + 4
    && path[..|base|] == base
    && path[|path| - 4..] == ".log"
    && '/' !in path[|base|..|path| - 4]
  }

  // ---------------------------------------------------------------------------
  // Properties of names

  /** Where the pieces of `a-b-c-d` sit when the pieces have widths 4, 2, 2 and 2. */
  lemma JoinLayout(a: string, b: string, c: string, d: string)
    requires |a| == 4 && |b| == 2 && |c| == 2 && |d| == 2
    ensures var s := a + "-" + b + "-" + c + "-" + d;
      && |s| == 13 && s[0..4] == a && s[4] == '-' && s[5..7] == b && s[7] == '-'
      && s[8..10] == c && s[10] == '-' && s[11..13] == d
  {
    var s := a + "-" + b + "-" + c + "-" + d;
    assert s == a + ("-" + b + "-" + c + "-" + d);
    assert s[5..] == b + ("-" + c + "-" + d);
    assert s[8..] == c + ("-" + d);
  }

  /** The digits of a well-formed stamp, and each field read back from its place. */
  lemma HourDigitsFields(t: HourStamp)
    requires WellFormed(t)
    ensures var d := HourDigits(t);
      && |d| == 13 && d[4] == '-' && d[7] == '-' && d[10] == '-'
      && d[0..4] == Padded(t.year, 4) && d[5..7] == Padded(t.month, 2)
      && d[8..10] == Padded(t.day, 2) && d[11..13] == Padded(t.hour, 2)
      && ParseDigits(d[0..4]) == t.year && ParseDigits(d[5..7]) == t.month
      && ParseDigits(d[8..10]) == t.day && ParseDigits(d[11..13]) == t.hour
  {
    PaddedRoundTrip(t.year, 4);
    PaddedRoundTrip(t.month, 2);
    PaddedRoundTrip(t.day, 2);
    PaddedRoundTrip(t.hour, 2);
    JoinLayout(Padded(t.year, 4), Padded(t.month, 2), Padded(t.day, 2), Padded(t.hour, 2));
  }

  /** A string laid out as `####-##-##-##` fits the tail of the date pattern. */
  lemma DateTailFits(d: string)
    requires |d| == 13 && d[4] == '-' && d[7] == '-' && d[10] == '-'
    requires AllDigits(d[0..4]) && AllDigits(d[5..7]) && AllDigits(d[8..10]) && AllDigits(d[11..13])
    ensures forall j :: 0 <= j < 13 ==> Fits(d[j], Template[6 + j])
  {
    var tail := Template[6..];
    assert tail == "####-##-##-##";
    forall j | 0 <= j < 13 ensures Fits(d[j], tail[j]) {
      if j < 4 {
        assert d[j] == d[0..4][j];
      } else if j == 4 || j == 7 || j == 10 {
      } else if j < 7 {
        assert d[j] == d[5..7][j - 5];
      } else if j < 10 {
        assert d[j] == d[8..10][j - 8];
      } else {
        assert d[j] == d[11..13][j - 11];
      }
    }
  }

  /** A well-formed stamp prints as `####-##-##-##`, the tail of the date pattern. */
  lemma HourDigitsFit(t: HourStamp)
    requires WellFormed(t)
    ensures |HourDigits(t)| == 13
    ensures forall j :: 0 <= j < 13 ==> Fits(HourDigits(t)[j], Template[6 + j])
  {
    HourDigitsFields(t);
    DateTailFits(HourDigits(t));
  }

  /** Distinct hours get distinct names, for a fixed base. */
  lemma HourlyNameInjective(base: string, t1: HourStamp, t2: HourStamp)
    requires WellFormed(t1) && WellFormed(t2)
    ensures HourlyName(base, t1) == HourlyName(base, t2) <==> t1 == t2
  {
    if HourlyName(base, t1) == HourlyName(base, t2) {
      HourDigitsFields(t1);
      HourDigitsFields(t2);
      var n := HourlyName(base, t1);
      assert n[|base| + 1..|base| + 14] == HourDigits(t1);
      assert HourlyName(base, t2)[|base| + 1..|base| + 14] == HourDigits(t2);
    }
  }

  /** Every hourly name is found by the startup glob over the same base. */
  lemma HourlyNameGlobbed(base: string, t: HourStamp)
    requires WellFormed(t)
    ensures GlobMatches(base, HourlyName(base, t))
  {
    HourDigitsFit(t);
    ShapedNameGlobbed(base, HourDigits(t));
  }

  /** `base-d.log` for a date-shaped `d` is found by the glob. */
  lemma ShapedNameGlobbed(base: string, d: string)
    requires DateShaped(d)
    ensures GlobMatches(base, base + "-" + d + ".log")
  {
    var n := base + "-" + d + ".log";
    assert n[..|base|] == base;
    assert n[|n| - 4..] == ".log";
    assert n[|base|..|n| - 4] == "-" + d;
    forall j | 0 <= j < 13 ensures d[j] != '/' {
      assert Fits(d[j], Template[6 + j]);
    }
  }

  /** The base ends in "index", so the date of an hourly name starts inside the base. */
  predicate EndsWithIndex(base: string) {
    |base| >= 5 && base[|base| - 5..] == "index"
  }

  /** The base ends in the first 16 characters of a match, which the name's "-YY" would complete. */
  predicate EndsWithPartialDate(base: string) {
    |base| >= 16 && forall j :: 0 <= j < 16 ==> Fits(base[|base| - 16 + j], Template[j])
  }

  /** The character 'i' occurs in the date pattern only at its start. */
  lemma OnlyFirstIsI(q: nat)
    requires 1 <= q < MatchLen
    ensures Template[q] != 'i'
  {
    var rest := Template[1..];
    assert rest == "ndex-####-##-##-##";
    assert Template[q] == rest[q - 1];
  }

  /** A window lying wholly inside the base matches in the name exactly when it matches in the base. */
  lemma WindowInBase(base: string, suffix: string, i: nat)
    requires i + MatchLen <= |base|
    ensures MatchesAt(base + suffix, i) <==> MatchesAt(base, i)
  {
    var n := base + suffix;
    forall j | 0 <= j < MatchLen ensures Fits(n[i + j], Template[j]) == Fits(base[i + j], Template[j]) {
    }
  }

  /** One character that the pattern does not admit at its place rules out a match. */
  lemma Blocked(s: string, i: nat, x: nat)
    requires i <= x < i + MatchLen && x < |s|
    requires !Fits(s[x], Template[x - i])
    ensures !MatchesAt(s, i)
  {
  }

  /** Laid out like the date part of a match: `####-##-##-##`. */
  predicate DateShaped(d: string) {
    |d| == 13 && forall j :: 0 <= j < 13 ==> Fits(d[j], Template[6 + j])
  }

  /** In `base-d.log` with `base` ending in "index", the pattern matches at that "index". */
  lemma MatchAtBaseEnd(base: string, d: string)
    requires DateShaped(d) && EndsWithIndex(base)
    ensures MatchesAt(base + "-" + d + ".log", |base| - 5)
  {
    var n := base + "-" + d + ".log";
    var p := |base| - 5;
    forall j | 0 <= j < MatchLen ensures Fits(n[p + j], Template[j]) {
      if j < 5 {
        assert n[p + j] == base[|base| - 5..][j];
      } else if j == 5 {
        assert n[p + j] == '-';
      } else {
        assert n[p + j] == d[j - 6];
      }
    }
  }

  /** In `base-d.log` with `base` ending in "index", the leftmost match starts at that "index". */
  lemma {:induction false} LeftmostInName(base: string, d: string)
    requires DateShaped(d) && EndsWithIndex(base)
    requires forall i: nat :: !MatchesAt(base, i)
    ensures FindMatch(base + "-" + d + ".log", 0) == Some(|base| - 5)
  {
    var suffix := "-" + d + ".log";
    var n := base + suffix;
    assert n == base + "-" + d + ".log";
    var p := |base| - 5;
    MatchAtBaseEnd(base, d);
    assert n[p] == 'i' by {
      assert n[p] == base[|base| - 5..][0];
    }
    forall i: nat | i < p ensures !MatchesAt(n, i) {
      if i + MatchLen <= |base| {
        WindowInBase(base, suffix, i);
      } else {
        OnlyFirstIsI(p - i);
        Blocked(n, i, p);
      }
    }
    var r := FindMatch(n, 0);
    assert r.Some?;
    assert r.value <= p;
  }

  /** Where the date groups of `base-d.log` sit when `base` ends in "index". */
  lemma GroupsOfName(base: string, d: string)
    requires |d| == 13 && |base| >= 5
    ensures var n, p := base + "-" + d + ".log", |base| - 5;
      n[p + 6..p + 10] == d[0..4] && n[p + 11..p + 13] == d[5..7] && n[p + 14..p + 16] == d[8..10]
  {
    var n := base + "-" + d + ".log";
    assert n == base + ("-" + d + ".log");
    assert n[|base| + 1..] == d + ".log";
  }

  /** In `base-d.log` with a base that neither holds nor ends in (part of) a date, there is no match. */
  lemma {:induction false} NoMatchInName(base: string, d: string)
    requires DateShaped(d) && !EndsWithIndex(base) && !EndsWithPartialDate(base)
    requires forall i: nat :: !MatchesAt(base, i)
    ensures forall i: nat :: !MatchesAt(base + "-" + d + ".log", i)
  {
    var suffix := "-" + d + ".log";
    var n := base + suffix;
    assert n == base + "-" + d + ".log";
    forall i: nat ensures !MatchesAt(n, i) {
      if i + MatchLen <= |base| {
        WindowInBase(base, suffix, i);
      } else if i < |base| {
        NoStraddle(base, d, i);
      } else if i < |n| {
        assert n[i] in suffix;
        assert !Fits(n[i], Template[0]);
      }
    }
  }

  /** A window that starts in `base` and runs into the date cannot match. */
  lemma NoStraddle(base: string, d: string, i: nat)
    requires DateShaped(d) && !EndsWithIndex(base) && !EndsWithPartialDate(base)
    requires |base| < i + MatchLen && i < |base|
    ensures !MatchesAt(base + "-" + d + ".log", i)
  {
    var n := base + "-" + d + ".log";
    if MatchesAt(n, i) {
      var q := |base| - i;
      StraddleAtDash(base, d, i);
      if q == 5 {
        forall j | 0 <= j < 5 ensures base[|base| - 5..][j] == "index"[j] {
          assert Fits(n[i + j], Template[j]);
        }
      } else if q == 10 || q == 13 {
        assert IsDigit(n[|base| + 3]) by {
          assert n[|base| + 3] == d[2];
          assert Fits(d[2], Template[8]);
        }
        Blocked(n, i, |base| + 3);
      }
    }
  }

  /** The '-' after `base` can only sit where the pattern has a '-'. */
  lemma StraddleAtDash(base: string, d: string, i: nat)
    requires |base| < i + MatchLen && i < |base|
    requires MatchesAt(base + "-" + d + ".log", i)
    ensures |base| - i in {5, 10, 13, 16}
  {
    var n := base + "-" + d + ".log";
    var q := |base| - i;
    assert n[|base|] == '-';
    assert Fits(n[i + q], Template[q]);
    var tail := Template[5..];
    assert tail == "-####-##-##-##";
    assert q >= 5 ==> Template[q] == tail[q - 5];
  }



  /**
   * Name/age round trip: for a base ending in "index" that carries no date of
   * its own, the leftmost match in an hourly name is the one the name was
   * built with, and it gives back the stamp's year, month and day.
   */
  lemma HourlyNameParses(base: string, t: HourStamp)
    requires WellFormed(t) && EndsWithIndex(base)
    requires forall i: nat :: !MatchesAt(base, i)
    ensures ParseShardDate(HourlyName(base, t)) == Ok(ShardDate(t.year, t.month, t.day))
  {
    var n := HourlyName(base, t);
    var d := HourDigits(t);
    var p := |base| - 5;
    HourDigitsFields(t);
    HourDigitsFit(t);
    LeftmostInName(base, d);
    GroupsOfName(base, d);
    assert ParseShardDate(n) == Ok(DateAt(n, p));
  }

  /** The age test on an hourly name compares against midnight UTC of the stamp's day; the hour plays no part. */
  lemma HourlyNameAge(base: string, t: HourStamp, age: int, now: int)
    requires WellFormed(t) && EndsWithIndex(base)
    requires forall i: nat :: !MatchesAt(base, i)
    ensures IsOlderThan(HourlyName(base, t), age, now)
         == Ok(Elapsed(now, MidnightUtc(t.year, t.month, t.day)) > age)
  {
    HourlyNameParses(base, t);
  }

  /**
   * A base that does not end in "index" (and neither holds a date nor ends
   * in a partial one) yields hourly names that isOlderThan rejects.
   */
  lemma UnindexedBaseRejected(base: string, t: HourStamp, age: int, now: int)
    requires WellFormed(t) && !EndsWithIndex(base) && !EndsWithPartialDate(base)
    requires forall i: nat :: !MatchesAt(base, i)
    ensures IsOlderThan(HourlyName(base, t), age, now) == Err(InvalidFilenameFormat)
  {
    HourDigitsFit(t);
    NoMatchInName(base, HourDigits(t));
  }

  /** isOlderThan is monotone in `now` and anti-monotone in `age`. */
  lemma OlderThanMonotone(name: string, age1: int, age2: int, now1: int, now2: int)
    requires now1 <= now2 && age2 <= age1
    requires IsOlderThan(name, age1, now1) == Ok(true)
    ensures IsOlderThan(name, age2, now2) == Ok(true)
  {
    var date := ParseShardDate(name).value;
    ElapsedMonotone(now1, now2, MidnightUtc(date.year, date.month, date.day));
  }

  /** A shard exactly `age` old is not older than `age`: the comparison is strict. */
  lemma OlderThanIsStrict(name: string, age: int, now: int)
    requires ParseShardDate(name).Ok?
    requires var date := ParseShardDate(name).value;
             now - MidnightUtc(date.year, date.month, date.day) == age && IsDuration(age)
    ensures IsOlderThan(name, age, now) == Ok(false)
  {
  }
}
