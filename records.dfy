/**
 * The ingested log record and the document id the index lifecycle manager
 * stores it under: the record's timestamp in the layout
 * `20060102150405.000`, that is `YYYYMMDDhhmmss.mmm`.
 */
module Records {
  import opened Decimal

  /** The wall-clock fields of a record's `time.Time`, in the location it carries. */
  datatype Timestamp = Timestamp(year: nat, month: nat, day: nat,
                                 hour: nat, minute: nat, second: nat, nanosecond: nat)

  datatype LogRecord = LogRecord(timestamp: Timestamp, level: string, message: string)

  predicate WellFormed(ts: Timestamp) {
    && ts.year < 10000 && 1 <= ts.month <= 12 && 1 <= ts.day <= 31
    && ts.hour < 24 && ts.minute < 60 && ts.second < 60 && ts.nanosecond < 1_000_000_000
  }

  /** The fractional `.000` element shows milliseconds, truncated rather than rounded. */
  function Millisecond(ts: Timestamp): nat {
    ts.nanosecond / 1_000_000
  }

  /** The id `indexWithRetry` gives a record: a function of its timestamp alone. */
  function DocumentId(ts: Timestamp): string {
    Padded(ts.year, 4) + Padded(ts.month, 2) + Padded(ts.day, 2)
      + Padded(ts.hour, 2) + Padded(ts.minute, 2) + Padded(ts.second, 2)
      + "." + Padded(Millisecond(ts), 3)
  }

  /** Two timestamps that agree down to the millisecond. */
  predicate SameMillisecond(a: Timestamp, b: Timestamp) {
    && a.year == b.year && a.month == b.month && a.day == b.day
    && a.hour == b.hour && a.minute == b.minute && a.second == b.second
    && Millisecond(a) == Millisecond(b)
  }

  /** Where the seven fields of an id sit. */
  lemma IdLayout(y: string, mo: string, d: string, h: string, mi: string, s: string, ms: string)
    requires |y| == 4 && |mo| == 2 && |d| == 2 && |h| == 2 && |mi| == 2 && |s| == 2 && |ms| == 3
    ensures var id := y + mo + d + h + mi + s + "." + ms;
      && |id| == 18 && id[0..4] == y && id[4..6] == mo && id[6..8] == d && id[8..10] == h
      && id[10..12] == mi && id[12..14] == s && id[14] == '.' && id[15..18] == ms
  {
    var id := y + mo + d + h + mi + s + "." + ms;
    assert id == y + (mo + (d + (h + (mi + (s + ("." + ms))))));
  }

  /**
   * The document id identifies a timestamp up to the millisecond: equal ids
   * mean the same millisecond, and records in the same millisecond share an
   * id (a later one overwrites the earlier document).
   */
  lemma DocumentIdIdentifiesMillisecond(a: Timestamp, b: Timestamp)
    requires WellFormed(a) && WellFormed(b)
    ensures DocumentId(a) == DocumentId(b) <==> SameMillisecond(a, b)
  {
    if DocumentId(a) == DocumentId(b) {
      var pa := [Padded(a.year, 4), Padded(a.month, 2), Padded(a.day, 2), Padded(a.hour, 2),
                 Padded(a.minute, 2), Padded(a.second, 2), Padded(Millisecond(a), 3)];
      var pb := [Padded(b.year, 4), Padded(b.month, 2), Padded(b.day, 2), Padded(b.hour, 2),
                 Padded(b.minute, 2), Padded(b.second, 2), Padded(Millisecond(b), 3)];
      PaddedRoundTrip(a.year, 4); PaddedRoundTrip(b.year, 4);
      PaddedRoundTrip(a.month, 2); PaddedRoundTrip(b.month, 2);
      PaddedRoundTrip(a.day, 2); PaddedRoundTrip(b.day, 2);
      PaddedRoundTrip(a.hour, 2); PaddedRoundTrip(b.hour, 2);
      PaddedRoundTrip(a.minute, 2); PaddedRoundTrip(b.minute, 2);
      PaddedRoundTrip(a.second, 2); PaddedRoundTrip(b.second, 2);
      PaddedRoundTrip(Millisecond(a), 3); PaddedRoundTrip(Millisecond(b), 3);
      IdLayout(pa[0], pa[1], pa[2], pa[3], pa[4], pa[5], pa[6]);
      IdLayout(pb[0], pb[1], pb[2], pb[3], pb[4], pb[5], pb[6]);
    }
  }
}
