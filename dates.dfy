/** Fixed-width date texts and Python's `datetime.strptime` on them, as the two crawlers
    use it: `'%Y-%m-%dT%H:%M:%S'` for the GDACS feed and `'%Y-%m-%d %H:%M'` for forum
    posts. */
module Dates {
  import opened Wrappers
  import opened PyText
  import opened Schema

  /** `s[i..i+n]` exists and is made of decimal digits. */
  predicate DigitsAt(s: string, i: nat, n: nat) {
    i + n <= |s| && forall j :: i <= j < i + n ==> IsDigit(s[j])
  }

  function FieldAt(s: string, i: nat, n: nat): nat
    requires DigitsAt(s, i, n)
  {
    DigitsValue(s[i..i + n])
  }

  /** The text matched by the pattern `\d{4}-\d{2}-\d{2}T\d{2}:\d{2}:\d{2}` at the start. */
  predicate IsoPrefix(s: string) {
    && |s| >= 19
    && DigitsAt(s, 0, 4) && s[4] == '-' && DigitsAt(s, 5, 2) && s[7] == '-'
    && DigitsAt(s, 8, 2) && s[10] == 'T' && DigitsAt(s, 11, 2) && s[13] == ':'
    && DigitsAt(s, 14, 2) && s[16] == ':' && DigitsAt(s, 17, 2)
  }

  /** The digit groups of an ISO-style prefix, read as a date. */
  function IsoFields(s: string): DateTime
    requires IsoPrefix(s)
  {
    DateTime(FieldAt(s, 0, 4), FieldAt(s, 5, 2), FieldAt(s, 8, 2),
             FieldAt(s, 11, 2), FieldAt(s, 14, 2), FieldAt(s, 17, 2))
  }

  /** `datetime.strptime(s, '%Y-%m-%dT%H:%M:%S')` for a text that begins with the
      ISO-style pattern: it must end right after the seconds and name a real date. */
  function StrptimeIso(s: string): (r: Option<DateTime>)
    requires IsoPrefix(s)
    ensures r.Some? <==> |s| == 19 && ValidDateTime(IsoFields(s))
    ensures r.Some? ==> r.value == IsoFields(s)
  {
    if |s| == 19 && ValidDateTime(IsoFields(s)) then Some(IsoFields(s)) else None
  }

  /** The text matched by `\d{4}-\d{2}-\d{2} \d{2}:\d{2}` at position `i`. */
  predicate LongStampAt(s: string, i: nat) {
    && i + 16 <= |s|
    && DigitsAt(s, i, 4) && s[i + 4] == '-' && DigitsAt(s, i + 5, 2) && s[i + 7] == '-'
    && DigitsAt(s, i + 8, 2) && s[i + 10] == ' ' && DigitsAt(s, i + 11, 2)
    && s[i + 13] == ':' && DigitsAt(s, i + 14, 2)
  }

  /** The text matched by `\d{2}-\d{2} \d{2}:\d{2}` at position `i`. */
  predicate ShortStampAt(s: string, i: nat) {
    && i + 11 <= |s|
    && DigitsAt(s, i, 2) && s[i + 2] == '-' && DigitsAt(s, i + 3, 2)
    && s[i + 5] == ' ' && DigitsAt(s, i + 6, 2) && s[i + 8] == ':' && DigitsAt(s, i + 9, 2)
  }

  /** The digit groups of a `YYYY-MM-DD HH:MM` text, read as a date. */
  function StampFields(s: string): DateTime
    requires LongStampAt(s, 0)
  {
    DateTime(FieldAt(s, 0, 4), FieldAt(s, 5, 2), FieldAt(s, 8, 2),
             FieldAt(s, 11, 2), FieldAt(s, 14, 2), 0)
  }

  /** `datetime.strptime(s, '%Y-%m-%d %H:%M')`. It accepts exactly the 16-character
      `YYYY-MM-DD HH:MM` texts naming a real date. (The format's own regular expression
      would also take single-digit fields and several spaces; no text the forum crawler
      builds has them, and every other text it builds — a shorter or longer one, or
      one with letters — is one that `strptime` rejects.) */
  function StrptimeMinute(s: string): (r: Option<DateTime>)
    ensures r.Some? <==> |s| == 16 && LongStampAt(s, 0) && ValidDateTime(StampFields(s))
    ensures r.Some? ==> r.value == StampFields(s)
  {
    if |s| == 16 && LongStampAt(s, 0) && ValidDateTime(StampFields(s)) then Some(StampFields(s))
    else None
  }

  // ---------------------------------------------------------------------------
  // Writing dates back as text, for the round trips

  function Pad2(n: nat): (s: string)
    requires n < 100
    ensures |s| == 2 && AllDigits(s) && DigitsValue(s) == n
  {
    var s := [DigitChar(n / 10), DigitChar(n % 10)];
    assert s[..1] == [DigitChar(n / 10)];
    assert [DigitChar(n / 10)][..0] == [];
    assert DigitsValue(s[..1]) == n / 10;
    s
  }

  function Pad4(n: nat): (s: string)
    requires n < 10000
    ensures |s| == 4 && AllDigits(s) && DigitsValue(s) == n
  {
    var hi := Pad2(n / 100);
    var lo := Pad2(n % 100);
    var s := hi + lo;
    assert s[..3] == hi + [lo[0]];
    assert (hi + [lo[0]])[..2] == hi;
    assert lo[..1] == [lo[0]];
    s
  }

  /** `isoformat()` of a date: `YYYY-MM-DDTHH:MM:SS`. */
  function IsoText(d: DateTime): (s: string)
    requires ValidDateTime(d)
    ensures |s| == 19
  {
    Pad4(d.year) + "-" + Pad2(d.month) + "-" + Pad2(d.day) + "T"
      + Pad2(d.hour) + ":" + Pad2(d.minute) + ":" + Pad2(d.second)
  }

  /** `strftime('%Y-%m-%d %H:%M')` of a date. */
  function StampText(d: DateTime): (s: string)
    requires ValidDateTime(d)
    ensures |s| == 16
  {
    Pad4(d.year) + "-" + Pad2(d.month) + "-" + Pad2(d.day) + " "
      + Pad2(d.hour) + ":" + Pad2(d.minute)
  }

  lemma FieldOfPad(s: string, i: nat, n: nat, p: string)
    requires i + n <= |s| && s[i..i + n] == p && AllDigits(p)
    ensures DigitsAt(s, i, n) && FieldAt(s, i, n) == DigitsValue(p)
  {
    forall j | i <= j < i + n ensures IsDigit(s[j]) { assert s[j] == p[j - i]; }
  }

  /** A two-digit text is `Pad2` of the number it writes. */
  lemma Pad2OfDigits(p: string)
    requires |p| == 2 && AllDigits(p)
    ensures DigitsValue(p) < 100 && Pad2(DigitsValue(p)) == p
  {
    assert p[..1][..0] == [];
    assert DigitsValue(p[..1]) == DigitValue(p[0]);
    assert DigitsValue(p) == DigitValue(p[0]) * 10 + DigitValue(p[1]);
  }

  lemma DivMod100(hi: nat, lo: nat)
    requires lo < 100
    ensures (hi * 100 + lo) / 100 == hi && (hi * 100 + lo) % 100 == lo
  {
  }

  /** The number a four-digit text writes, from its two halves. */
  lemma DigitsValueOfHalves(p: string)
    requires |p| == 4 && AllDigits(p)
    ensures DigitsValue(p) == DigitsValue(p[..2]) * 100 + DigitsValue(p[2..])
  {
    var hi, lo, first := p[..2], p[2..], p[..3];
    assert first[..2] == hi && first[2] == p[2];
    assert DigitsValue(first) == DigitsValue(hi) * 10 + DigitValue(p[2]);
    assert DigitsValue(p) == DigitsValue(first) * 10 + DigitValue(p[3]);
    assert lo[..1][..0] == [] && lo[..1] == [p[2]] && lo[1] == p[3];
    assert DigitsValue(lo[..1]) == DigitValue(p[2]);
    assert DigitsValue(lo) == DigitValue(p[2]) * 10 + DigitValue(p[3]);
  }

  /** A four-digit text is `Pad4` of the number it writes. */
  lemma Pad4OfDigits(p: string)
    requires |p| == 4 && AllDigits(p)
    ensures DigitsValue(p) < 10000 && Pad4(DigitsValue(p)) == p
  {
    var hi, lo := p[..2], p[2..];
    Pad2OfDigits(hi);
    Pad2OfDigits(lo);
    DigitsValueOfHalves(p);
    DivMod100(DigitsValue(hi), DigitsValue(lo));
    assert p == hi + lo;
  }

  /** Every real date, written ISO-style, is read back as itself. */
  lemma IsoRoundTrip(d: DateTime)
    requires ValidDateTime(d)
    ensures IsoPrefix(IsoText(d)) && StrptimeIso(IsoText(d)) == Some(d)
  {
    var s := IsoText(d);
    FieldOfPad(s, 0, 4, Pad4(d.year));
    FieldOfPad(s, 5, 2, Pad2(d.month));
    FieldOfPad(s, 8, 2, Pad2(d.day));
    FieldOfPad(s, 11, 2, Pad2(d.hour));
    FieldOfPad(s, 14, 2, Pad2(d.minute));
    FieldOfPad(s, 17, 2, Pad2(d.second));
  }

  /** Every real date whole to the minute, written `YYYY-MM-DD HH:MM`, is read back. */
  lemma StampRoundTrip(d: DateTime)
    requires ValidDateTime(d) && d.second == 0
    ensures LongStampAt(StampText(d), 0) && StrptimeMinute(StampText(d)) == Some(d)
  {
    var s := StampText(d);
    FieldOfPad(s, 0, 4, Pad4(d.year));
    FieldOfPad(s, 5, 2, Pad2(d.month));
    FieldOfPad(s, 8, 2, Pad2(d.day));
    FieldOfPad(s, 11, 2, Pad2(d.hour));
    FieldOfPad(s, 14, 2, Pad2(d.minute));
  }

  /** The converse of `IsoRoundTrip`: a text `strptime` accepts is the ISO-style text of
      the date it yields, so the accepted texts are exactly those of real dates. */
  lemma IsoTextOfParsed(s: string)
    requires IsoPrefix(s) && StrptimeIso(s).Some?
    ensures ValidDateTime(StrptimeIso(s).value) && IsoText(StrptimeIso(s).value) == s
  {
    var d := IsoFields(s);
    Pad4OfDigits(s[0..4]);
    Pad2OfDigits(s[5..7]);
    Pad2OfDigits(s[8..10]);
    Pad2OfDigits(s[11..13]);
    Pad2OfDigits(s[14..16]);
    Pad2OfDigits(s[17..19]);
    assert s == s[0..4] + [s[4]] + s[5..7] + [s[7]] + s[8..10] + [s[10]]
      + s[11..13] + [s[13]] + s[14..16] + [s[16]] + s[17..19];
  }

  /** The converse of `StampRoundTrip`: a text `strptime` accepts is the
      `YYYY-MM-DD HH:MM` text of the date it yields, which is whole to the minute. */
  lemma StampTextOfParsed(s: string)
    requires StrptimeMinute(s).Some?
    ensures StrptimeMinute(s).value.second == 0
    ensures ValidDateTime(StrptimeMinute(s).value) && StampText(StrptimeMinute(s).value) == s
  {
    var d := StampFields(s);
    Pad4OfDigits(s[0..4]);
    Pad2OfDigits(s[5..7]);
    Pad2OfDigits(s[8..10]);
    Pad2OfDigits(s[11..13]);
    Pad2OfDigits(s[14..16]);
    assert s == s[0..4] + [s[4]] + s[5..7] + [s[7]] + s[8..10] + [s[10]]
      + s[11..13] + [s[13]] + s[14..16];
  }
}
