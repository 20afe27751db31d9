/**
  The time value of the Utils namespace, as tests/Utils/TimeTest.php pins it down: a whole
  number of seconds, read from "h:m:s", "m:s" or "s" text, printed as "hh:mm:ss", and
  formatted with %H/%M/%S (two digits at least) and %h/%m/%s (no padding).
 */
module Time {
  import opened Text

  const SEPARATOR := ":"
  const SECONDS_PER_MINUTE := 60
  const SECONDS_PER_HOUR := 3600

  /** `sprintf("%02d", $n)`: the decimal digits, with a leading zero below ten. */
  function Pad2(n: nat): (r: string)
    ensures |r| >= 2 && IsDigits(r)
    ensures n >= 10 ==> r == NatToString(n)
  {
    if n < 10 then "0" + NatToString(n) else NatToString(n)
  }

  lemma Pad2Value(n: nat)
    ensures DigitsValue(Pad2(n)) == n
  {
    NatToStringValue(n);
    if n < 10 {
      LeadingZeroValue(NatToString(n));
    }
  }

  /** `(int) $field` for a field made of decimal digits and whatever follows them. */
  function FieldValue(field: string): nat {
    DigitsValue(LeadingDigits(field))
  }

  /** The letters that follow '%' in a format placeholder. */
  predicate IsPlaceholder(c: char) {
    c == 'H' || c == 'h' || c == 'M' || c == 'm' || c == 'S' || c == 's'
  }

  /** A format with each placeholder replaced by `part` of its letter. */
  function Expand(fmt: string, part: char -> string): string
    decreases |fmt|
  {
    if fmt == [] then ""
    else if |fmt| >= 2 && fmt[0] == '%' && IsPlaceholder(fmt[1]) then
      part(fmt[1]) + Expand(fmt[2..], part)
    else [fmt[0]] + Expand(fmt[1..], part)
  }

  datatype Time = Time(seconds: nat) {
    function AsInt(): nat { seconds }

    function Hours(): nat { seconds / SECONDS_PER_HOUR }
    function Minutes(): nat { seconds / SECONDS_PER_MINUTE % 60 }
    function Seconds(): nat { seconds % SECONDS_PER_MINUTE }

    /** "hh:mm:ss", each part padded to two digits: split at ':', it gives back the three
        padded parts. */
    function AsString(): (r: string)
      ensures Split(r, SEPARATOR) == [Pad2(Hours()), Pad2(Minutes()), Pad2(Seconds())]
    {
      var h, m, s := Pad2(Hours()), Pad2(Minutes()), Pad2(Seconds());
      DigitsNoColon(h);
      DigitsNoColon(m);
      DigitsNoColon(s);
      SplitThree(h, m, s);
      h + SEPARATOR + m + SEPARATOR + s
    }

    /** The format string with %H, %M, %S replaced by the padded parts, %h, %m, %s by the
        unpadded ones, and every other character kept. */
    function Format(fmt: string): (r: string)
      ensures '%' !in fmt ==> r == fmt
    {
      ExpandPlain(fmt, Part);
      Expand(fmt, Part)
    }

    function Part(c: char): string {
      match c
      case 'H' => Pad2(Hours())
      case 'M' => Pad2(Minutes())
      case 'S' => Pad2(Seconds())
      case 'h' => NatToString(Hours())
      case 'm' => NatToString(Minutes())
      case _ => NatToString(Seconds())
    }
  }

  /** Digits hold no ':'. */
  lemma DigitsNoColon(x: string)
    requires IsDigits(x)
    ensures ':' !in x
  {
  }

  /** Three colon-free fields joined by ':' split back into those fields. */
  lemma SplitThree(h: string, m: string, s: string)
    requires ':' !in h && ':' !in m && ':' !in s
    ensures Split(h + SEPARATOR + m + SEPARATOR + s, SEPARATOR) == [h, m, s]
  {
    var parts := [h, m, s];
    assert JoinWith(parts, SEPARATOR) == h + SEPARATOR + m + SEPARATOR + s by {
      JoinCons(m, [s], SEPARATOR);
      assert JoinWith([m, s], SEPARATOR) == m + SEPARATOR + s;
      assert parts == [h] + [m, s];
      JoinCons(h, [m, s], SEPARATOR);
    }
    JoinSplit(parts, SEPARATOR);
  }

  function FromInt(seconds: nat): (t: Time)
    ensures t.AsInt() == seconds
  {
    Time(seconds)
  }

  /** The fields of the text taken from the right: seconds, then minutes, then hours;
      a missing field counts as zero. */
  function FromString(s: string): (t: Time)
    ensures ':' !in s ==> t.AsInt() == FieldValue(s)
  {
    var bits := Split(s, SEPARATOR);
    assert ':' !in s ==> bits == [s] by {
      if ':' !in s { SplitNone(s, SEPARATOR); }
    }
    var n := |bits|;
    var sec := FieldValue(bits[n - 1]);
    var min := if n >= 2 then FieldValue(bits[n - 2]) else 0;
    var hrs := if n >= 3 then FieldValue(bits[n - 3]) else 0;
    Time(SECONDS_PER_HOUR * hrs + SECONDS_PER_MINUTE * min + sec)
  }

  /** The parts a time prints are its hours, minutes under 60 and seconds under 60, and
      they add back up to the time. */
  lemma PartsAddUp(t: Time)
    ensures t.Minutes() < 60 && t.Seconds() < 60
    ensures SECONDS_PER_HOUR * t.Hours() + SECONDS_PER_MINUTE * t.Minutes() + t.Seconds() == t.seconds
  {
    var q := t.seconds / 60;
    assert t.seconds == 60 * q + t.Seconds();
    assert q == 60 * (q / 60) + q % 60;
    assert t.seconds == 3600 * (q / 60) + 60 * (q % 60) + t.Seconds();
    assert q / 60 == t.Hours();
  }

  /** A three-field text is worth its hours, minutes and seconds. */
  lemma {:induction false} FromStringFields(h: string, m: string, s: string)
    requires ':' !in h && ':' !in m && ':' !in s
    ensures FromString(h + SEPARATOR + m + SEPARATOR + s).AsInt() ==
              SECONDS_PER_HOUR * FieldValue(h) + SECONDS_PER_MINUTE * FieldValue(m) + FieldValue(s)
  {
    SplitThree(h, m, s);
  }

  /** A two-field text is worth its minutes and seconds. */
  lemma {:induction false} FromStringMinutes(m: string, s: string)
    requires ':' !in m && ':' !in s
    ensures FromString(m + SEPARATOR + s).AsInt() == SECONDS_PER_MINUTE * FieldValue(m) + FieldValue(s)
  {
    var parts := [m, s];
    assert JoinWith(parts, SEPARATOR) == m + SEPARATOR + s by {
      assert parts[1..] == [s];
    }
    JoinSplit(parts, SEPARATOR);
  }

  /** Reading back what asString prints gives the same time. */
  lemma AsStringRoundTrip(t: Time)
    ensures FromString(t.AsString()) == t
  {
    var h, m, s := Pad2(t.Hours()), Pad2(t.Minutes()), Pad2(t.Seconds());
    forall x | x in [h, m, s] ensures ':' !in x && LeadingDigits(x) == x {
      LeadingDigitsOfDigits(x);
    }
    FromStringFields(h, m, s);
    Pad2Value(t.Hours());
    Pad2Value(t.Minutes());
    Pad2Value(t.Seconds());
    PartsAddUp(t);
  }

  /** Formatting a placeholder followed by more of the format. */
  lemma ExpandPlaceholder(part: char -> string, c: char, rest: string)
    requires IsPlaceholder(c)
    ensures Expand(['%', c] + rest, part) == part(c) + Expand(rest, part)
  {
    assert (['%', c] + rest)[2..] == rest;
  }

  /** Formatting a character that does not start a placeholder. */
  lemma ExpandLiteral(part: char -> string, c: char, rest: string)
    requires c != '%'
    ensures Expand([c] + rest, part) == [c] + Expand(rest, part)
  {
    assert ([c] + rest)[1..] == rest;
  }

  /** A format without '%' is copied unchanged. */
  lemma {:induction false} ExpandPlain(fmt: string, part: char -> string)
    ensures '%' !in fmt ==> Expand(fmt, part) == fmt
    decreases |fmt|
  {
    if fmt != [] && '%' !in fmt {
      ExpandPlain(fmt[1..], part);
      assert fmt == [fmt[0]] + fmt[1..];
      ExpandLiteral(part, fmt[0], fmt[1..]);
    }
  }

  /** A placeholder and the character after it, ahead of more of the format. */
  lemma ExpandSegment(part: char -> string, c: char, sep: char, rest: string)
    requires IsPlaceholder(c) && sep != '%'
    ensures Expand(['%', c, sep] + rest, part) == part(c) + [sep] + Expand(rest, part)
  {
    assert ['%', c, sep] + rest == ['%', c] + ([sep] + rest);
    ExpandPlaceholder(part, c, [sep] + rest);
    ExpandLiteral(part, sep, rest);
  }

  /** An eight-character format taken apart as three segments. */
  lemma Segments(fmt: string, a: char, sep1: char, b: char, sep2: char, c: char)
    requires fmt == ['%', a, sep1, '%', b, sep2, '%', c]
    ensures fmt == ['%', a, sep1] + (['%', b, sep2] + ['%', c])
  {
  }

  /** A format of three placeholders and two other characters between them. */
  lemma ExpandThree(part: char -> string, fmt: string, a: char, sep1: char, b: char, sep2: char, c: char)
    requires fmt == ['%', a, sep1] + (['%', b, sep2] + ['%', c])
    requires IsPlaceholder(a) && IsPlaceholder(b) && IsPlaceholder(c) && sep1 != '%' && sep2 != '%'
    ensures Expand(fmt, part) == part(a) + [sep1] + part(b) + [sep2] + part(c)
  {
    var last := ['%', c];
    ExpandSegment(part, a, sep1, ['%', b, sep2] + last);
    ExpandSegment(part, b, sep2, last);
    ExpandPlaceholder(part, c, []);
    assert last == last + [];
  }

  lemma FormatThree(t: Time, fmt: string, a: char, sep1: char, b: char, sep2: char, c: char)
    requires fmt == ['%', a, sep1, '%', b, sep2, '%', c]
    requires IsPlaceholder(a) && IsPlaceholder(b) && IsPlaceholder(c) && sep1 != '%' && sep2 != '%'
    ensures t.Format(fmt) == t.Part(a) + [sep1] + t.Part(b) + [sep2] + t.Part(c)
  {
    Segments(fmt, a, sep1, b, sep2, c);
    ExpandThree(t.Part, fmt, a, sep1, b, sep2, c);
  }

  /** "%H:%M:%S" formats a time as asString prints it. */
  lemma FormatPadded(t: Time, fmt: string)
    requires fmt == "%H:%M:%S"
    ensures t.Format(fmt) == t.AsString()
  {
    FormatThree(t, fmt, 'H', ':', 'M', ':', 'S');
  }

  /** The parts of a time are the only hours, minutes under 60 and seconds under 60 that
      add up to it. */
  lemma PartsOf(t: Time, h: nat, m: nat, s: nat)
    requires m < 60 && s < 60
    requires t.seconds == SECONDS_PER_HOUR * h + SECONDS_PER_MINUTE * m + s
    ensures t.Hours() == h && t.Minutes() == m && t.Seconds() == s
  {
    assert t.seconds == 60 * (60 * h + m) + s;
    assert t.seconds / 60 == 60 * h + m;
    assert t.seconds / 3600 == h;
  }

  /** Below a hundred, the padded form is exactly two digits. */
  lemma TwoDigits(n: nat)
    requires n < 100
    ensures Pad2(n) == [DigitChar(n / 10), DigitChar(n % 10)]
  {
    if n >= 10 {
      assert NatToString(n) == NatToString(n / 10) + [DigitChar(n % 10)];
    }
  }

  /** How a time under a hundred hours prints, digit by digit. */
  lemma PrintsDigits(t: Time)
    requires t.Hours() < 100
    ensures t.AsString() == [DigitChar(t.Hours() / 10), DigitChar(t.Hours() % 10), ':',
                             DigitChar(t.Minutes() / 10), DigitChar(t.Minutes() % 10), ':',
                             DigitChar(t.Seconds() / 10), DigitChar(t.Seconds() % 10)]
  {
    PartsAddUp(t);
    TwoDigits(t.Hours());
    TwoDigits(t.Minutes());
    TwoDigits(t.Seconds());
  }

  /** Below ten, the padded and unpadded forms are '0' and the digit, and the digit. */
  lemma SmallDigits(n: nat)
    requires n < 10
    ensures Pad2(n) == ['0', DigitChar(n)] && NatToString(n) == [DigitChar(n)]
  {
  }
}
