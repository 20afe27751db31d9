/**
  The assertions of tests/Utils/TimeTest.php, stated about the model of the time value.
 */
module TimeExamples {
  import opened Text
  import opened Time

  /** A text of three digit fields reads as the time they add up to. */
  lemma ParsesTo(text: string, h: string, m: string, s: string, n: nat)
    requires text == h + SEPARATOR + m + SEPARATOR + s
    requires IsDigits(h) && IsDigits(m) && IsDigits(s)
    requires n == SECONDS_PER_HOUR * DigitsValue(h) + SECONDS_PER_MINUTE * DigitsValue(m) + DigitsValue(s)
    ensures FromString(text) == Time(n)
  {
    FromStringFields(h, m, s);
    LeadingDigitsOfDigits(h);
    LeadingDigitsOfDigits(m);
    LeadingDigitsOfDigits(s);
  }

  /** A text of two digit fields reads as minutes and seconds. */
  lemma ParsesMinutesTo(text: string, m: string, s: string, n: nat)
    requires text == m + SEPARATOR + s
    requires IsDigits(m) && IsDigits(s)
    requires n == SECONDS_PER_MINUTE * DigitsValue(m) + DigitsValue(s)
    ensures FromString(text) == Time(n)
  {
    FromStringMinutes(m, s);
    LeadingDigitsOfDigits(m);
    LeadingDigitsOfDigits(s);
  }

  /** A text of digits alone reads as that many seconds. */
  lemma ParsesSecondsTo(text: string, s: string, n: nat)
    requires text == s && IsDigits(s) && n == DigitsValue(s)
    ensures FromString(text) == Time(n)
  {
    DigitsNoColon(s);
    LeadingDigitsOfDigits(s);
  }

  /** How a time given by its parts prints. */
  lemma PrintsAs(t: Time, h: nat, m: nat, s: nat, text: string)
    requires h < 100 && m < 60 && s < 60
    requires t.seconds == SECONDS_PER_HOUR * h + SECONDS_PER_MINUTE * m + s
    requires text == [DigitChar(h / 10), DigitChar(h % 10), ':', DigitChar(m / 10), DigitChar(m % 10), ':',
                      DigitChar(s / 10), DigitChar(s % 10)]
    ensures t.AsString() == text
  {
    PartsOf(t, h, m, s);
    PrintsDigits(t);
  }

  /** testFromString1: the int 55, which PHP hands over as the text "55". */
  lemma FromStringExample1(text: string)
    requires text == "55"
    ensures FromString(text).AsInt() == 55 && FromString(text).AsString() == "00:00:55"
  {
    ParsesSecondsTo(text, "55", 55);
    PrintsAs(Time(55), 0, 0, 55, "00:00:55");
  }

  /** testFromString2: an empty minutes field counts as zero. */
  lemma FromStringExample2(text: string)
    requires text == ":55"
    ensures FromString(text).AsInt() == 55 && FromString(text).AsString() == "00:00:55"
  {
    ParsesMinutesTo(text, "", "55", 55);
    PrintsAs(Time(55), 0, 0, 55, "00:00:55");
  }

  /** testFromString3. */
  lemma FromStringExample3(text: string)
    requires text == "1:55"
    ensures FromString(text).AsInt() == 115 && FromString(text).AsString() == "00:01:55"
  {
    ParsesMinutesTo(text, "1", "55", 115);
    PrintsAs(Time(115), 0, 1, 55, "00:01:55");
  }

  /** testFromString4. */
  lemma FromStringExample4(text: string)
    requires text == "01:00"
    ensures FromString(text).AsInt() == 60 && FromString(text).AsString() == "00:01:00"
  {
    ParsesMinutesTo(text, "01", "00", 60);
    PrintsAs(Time(60), 0, 1, 0, "00:01:00");
  }

  /** testFromString5. */
  lemma FromStringExample5(text: string)
    requires text == "1:01:01"
    ensures FromString(text).AsInt() == 3661 && FromString(text).AsString() == "01:01:01"
  {
    ParsesTo(text, "1", "01", "01", 3661);
    PrintsAs(Time(3661), 1, 1, 1, "01:01:01");
    SmallDigits(1);
  }

  /** testFromInt1. */
  lemma FromIntExample1()
    ensures FromInt(0).AsInt() == 0 && FromInt(0).AsString() == "00:00:00"
  {
    PrintsAs(Time(0), 0, 0, 0, "00:00:00");
  }

  /** testFromInt2. */
  lemma FromIntExample2()
    ensures FromInt(60).AsInt() == 60 && FromInt(60).AsString() == "00:01:00"
  {
    PrintsAs(Time(60), 0, 1, 0, "00:01:00");
  }

  /** testFromInt3. */
  lemma FromIntExample3()
    ensures FromInt(127).AsInt() == 127 && FromInt(127).AsString() == "00:02:07"
  {
    PrintsAs(Time(127), 0, 2, 7, "00:02:07");
  }

  /** testFromInt4. */
  lemma FromIntExample4()
    ensures FromInt(3600).AsInt() == 3600 && FromInt(3600).AsString() == "01:00:00"
  {
    PrintsAs(Time(3600), 1, 0, 0, "01:00:00");
  }

  /** testFromInt5. */
  lemma FromIntExample5()
    ensures FromInt(3725).AsInt() == 3725 && FromInt(3725).AsString() == "01:02:05"
  {
    PrintsAs(Time(3725), 1, 2, 5, "01:02:05");
  }

  /** How a three-placeholder format prints, given what each placeholder prints as. */
  lemma FormatsAs(t: Time, fmt: string, a: char, sep1: char, b: char, sep2: char, c: char,
                  pa: string, pb: string, pc: string, out: string)
    requires fmt == ['%', a, sep1, '%', b, sep2, '%', c]
    requires IsPlaceholder(a) && IsPlaceholder(b) && IsPlaceholder(c) && sep1 != '%' && sep2 != '%'
    requires t.Part(a) == pa && t.Part(b) == pb && t.Part(c) == pc
    requires out == pa + [sep1] + pb + [sep2] + pc
    ensures t.Format(fmt) == out
  {
    FormatThree(t, fmt, a, sep1, b, sep2, c);
  }

  /** testFormat1. */
  lemma FormatExample1(text: string, fmt: string)
    requires text == "1:9:4" && fmt == "%H/%M/%S"
    ensures FromString(text).Format(fmt) == "01/09/04"
  {
    var t := Time(4144);
    assert FromString(text) == t by {
      ParsesTo(text, "1", "9", "4", 4144);
    }
    assert t.Format(fmt) == "01/09/04" by {
      PartsOf(t, 1, 9, 4);
      SmallDigits(1);
      SmallDigits(9);
      SmallDigits(4);
      FormatsAs(t, fmt, 'H', '/', 'M', '/', 'S', "01", "09", "04", "01/09/04");
    }
  }

  /** testFormat2. */
  lemma FormatExample2(text: string, fmt: string)
    requires text == "01:05:02" && fmt == "%h-%m-%s"
    ensures FromString(text).Format(fmt) == "1-5-2"
  {
    var t := Time(3902);
    assert FromString(text) == t by {
      ParsesTo(text, "01", "05", "02", 3902);
    }
    assert t.Format(fmt) == "1-5-2" by {
      PartsOf(t, 1, 5, 2);
      SmallDigits(1);
      SmallDigits(5);
      SmallDigits(2);
      FormatsAs(t, fmt, 'h', '-', 'm', '-', 's', "1", "5", "2", "1-5-2");
    }
  }

  /** The unpadded parts of 99:59:59. */
  lemma LastSecondOf99Hours(t: Time)
    requires t == Time(359999)
    ensures t.Part('h') == "99" && t.Part('m') == "59" && t.Part('s') == "59"
  {
    PartsOf(t, 99, 59, 59);
    assert t.Part('h') == "99" by {
      TwoDigits(99);
    }
    assert t.Part('m') == "59" && t.Part('s') == "59" by {
      TwoDigits(59);
    }
  }

  /** 99:59:59 formatted unpadded. */
  lemma FormatsLastSecondOf99Hours(t: Time, fmt: string)
    requires t == Time(359999) && fmt == "%h-%m-%s"
    ensures t.Format(fmt) == "99-59-59"
  {
    LastSecondOf99Hours(t);
    FormatsAs(t, fmt, 'h', '-', 'm', '-', 's', "99", "59", "59", "99-59-59");
  }

  /** testFormat3: the hours are not wrapped at a day. */
  lemma FormatExample3(text: string, fmt: string)
    requires text == "99:59:59" && fmt == "%h-%m-%s"
    ensures FromString(text).Format(fmt) == "99-59-59"
  {
    ParsesTo(text, "99", "59", "59", 359999);
    FormatsLastSecondOf99Hours(Time(359999), fmt);
  }

  /** testFormat4. */
  lemma FormatExample4(text: string, fmt: string)
    requires text == "00:00:00" && fmt == "%h-%m-%s"
    ensures FromString(text).Format(fmt) == "0-0-0"
  {
    var t := Time(0);
    assert FromString(text) == t by {
      ParsesTo(text, "00", "00", "00", 0);
    }
    assert t.Format(fmt) == "0-0-0" by {
      PartsOf(t, 0, 0, 0);
      SmallDigits(0);
      FormatsAs(t, fmt, 'h', '-', 'm', '-', 's', "0", "0", "0", "0-0-0");
    }
  }
}
