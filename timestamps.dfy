/** Broken-down local timestamps and the `strftime` layouts the system
    writes: `%Y%m%d_%H%M%S` (the ZKI input and migration filenames),
    `%Y%m%d_%H%M` (the verification URL) and `%d.%m.%YT%H:%M:%S` (the
    two timestamps of the fiscal document). Time-zone conversion happens
    before these values reach the model. */
module Timestamps {
  import opened Wrappers
  import opened Strings

  datatype Moment = Moment(year: nat, month: nat, day: nat, hour: nat, minute: nat, second: nat)

  /** The field ranges a Python `datetime` always satisfies. */
  predicate InRange(m: Moment) {
    1 <= m.year <= 9999 && 1 <= m.month <= 12 && 1 <= m.day <= 31
    && m.hour < 24 && m.minute < 60 && m.second < 60
  }

  type DateTime = m: Moment | InRange(m) witness Moment(2000, 1, 1, 0, 0, 0)

  /** `%Y%m%d_%H%M%S`. */
  function CompactStamp(t: DateTime): (r: string)
    ensures |r| == 15 && r[8] == '_'
    ensures IsDigits(r[..8]) && IsDigits(r[9..])
  {
    var r := Pad4(t.year) + Pad2(t.month) + Pad2(t.day) + "_" + Pad2(t.hour) + Pad2(t.minute) + Pad2(t.second);
    assert forall i :: 0 <= i < 8 ==> r[..8][i] == r[i];
    r
  }

  /** `%Y%m%d_%H%M`: the compact stamp without its seconds. */
  function MinuteStamp(t: DateTime): (r: string)
    ensures r == CompactStamp(t)[..13]
  {
    Pad4(t.year) + Pad2(t.month) + Pad2(t.day) + "_" + Pad2(t.hour) + Pad2(t.minute)
  }

  /** `%d.%m.%YT%H:%M:%S`. */
  function XmlStamp(t: DateTime): (r: string)
    ensures |r| == 19
    ensures r[2] == '.' && r[5] == '.' && r[10] == 'T' && r[13] == ':' && r[16] == ':'
  {
    Pad2(t.day) + "." + Pad2(t.month) + "." + Pad4(t.year) + "T" + Pad2(t.hour) + ":" + Pad2(t.minute) + ":" + Pad2(t.second)
  }

  /** Reads a `%Y%m%d_%H%M%S` string back; None for any other shape. */
  function ParseCompactStamp(s: string): Option<DateTime>
  {
    if |s| == 15 && s[8] == '_' && IsDigits(s[..8]) && IsDigits(s[9..]) then
      assert forall i :: 0 <= i < 4 ==> s[0..4][i] == s[..8][i];
      assert forall i :: 0 <= i < 2 ==> s[4..6][i] == s[..8][i + 4] && s[6..8][i] == s[..8][i + 6];
      assert forall i :: 0 <= i < 2 ==> s[9..11][i] == s[9..][i] && s[11..13][i] == s[9..][i + 2] && s[13..15][i] == s[9..][i + 4];
      var m := Moment(DigitsValue(s[0..4]), DigitsValue(s[4..6]), DigitsValue(s[6..8]),
                      DigitsValue(s[9..11]), DigitsValue(s[11..13]), DigitsValue(s[13..15]));
      if InRange(m) then Some(m) else None
    else None
  }

  /** Reads a `%d.%m.%YT%H:%M:%S` string back; None for any other shape. */
  function ParseXmlStamp(s: string): Option<DateTime>
  {
    if |s| == 19 && s[2] == '.' && s[5] == '.' && s[10] == 'T' && s[13] == ':' && s[16] == ':'
       && IsDigits(s[0..2]) && IsDigits(s[3..5]) && IsDigits(s[6..10])
       && IsDigits(s[11..13]) && IsDigits(s[14..16]) && IsDigits(s[17..19]) then
      var m := Moment(DigitsValue(s[6..10]), DigitsValue(s[3..5]), DigitsValue(s[0..2]),
                      DigitsValue(s[11..13]), DigitsValue(s[14..16]), DigitsValue(s[17..19]));
      if InRange(m) then Some(m) else None
    else None
  }

  /** The compact stamp determines the timestamp: reading it back gives
      every field, so two timestamps with the same stamp are equal. */
  lemma CompactStampRoundTrip(t: DateTime)
    ensures ParseCompactStamp(CompactStamp(t)) == Some(t)
  {
    var s := CompactStamp(t);
    assert s[0..4] == Pad4(t.year);
    assert s[4..6] == Pad2(t.month);
    assert s[6..8] == Pad2(t.day);
    assert s[9..11] == Pad2(t.hour);
    assert s[11..13] == Pad2(t.minute);
    assert s[13..15] == Pad2(t.second);
  }

  lemma XmlStampRoundTrip(t: DateTime)
    ensures ParseXmlStamp(XmlStamp(t)) == Some(t)
  {
    var s := XmlStamp(t);
    assert s[0..2] == Pad2(t.day);
    assert s[3..5] == Pad2(t.month);
    assert s[6..10] == Pad4(t.year);
    assert s[11..13] == Pad2(t.hour);
    assert s[14..16] == Pad2(t.minute);
    assert s[17..19] == Pad2(t.second);
  }
}
