/** Concrete instances: the page list the scraper is configured with, a
    duration as the schedule lists it, the rollover on the first page and
    calendar rollovers across month, year and February ends. */
module Scenarios {
  import opened Outcomes
  import opened JsString
  import opened Temporal
  import opened Digits
  import opened Scraper

  const BaseUrl: string := "https://fishingonorfu.hu"

  /** The URL of a day's schedule page, from the day's name. */
  function PageUrl(day: string): string {
    BaseUrl + "/fellepok/napi-bontas/" + day
  }

  /** `PAGES`: each festival day's date, as `Temporal.PlainDate.from` reads it
      from its text (see `PageDateTexts`), and its page URL. */
  const Pages: seq<ScheduleSource> := [
    (IsoDate(2025, 6, 25), PageUrl("szerda")),
    (IsoDate(2025, 6, 26), PageUrl("csutortok")),
    (IsoDate(2025, 6, 27), PageUrl("pentek")),
    (IsoDate(2025, 6, 28), PageUrl("szombat"))
  ]

  /** The text forms of the page dates are the strings the pages are
      configured with; by `DateRoundTrip`, reading those strings gives back
      these dates. */
  lemma PageDateTexts()
    ensures DateToString(IsoDate(2025, 6, 25)) == "2025-06-25"
    ensures DateToString(IsoDate(2025, 6, 26)) == "2025-06-26"
    ensures DateToString(IsoDate(2025, 6, 27)) == "2025-06-27"
    ensures DateToString(IsoDate(2025, 6, 28)) == "2025-06-28"
  {
    JuneDateText(25);
    JuneDateText(26);
    JuneDateText(27);
    JuneDateText(28);
  }

  /** `Temporal.PlainDate.from` reads each configured date string as its page's
      date. */
  lemma PagesFromTexts()
    ensures ParseDate("2025-06-25") == Done(Pages[0].0)
    ensures ParseDate("2025-06-26") == Done(Pages[1].0)
    ensures ParseDate("2025-06-27") == Done(Pages[2].0)
    ensures ParseDate("2025-06-28") == Done(Pages[3].0)
  {
    PageDateTexts();
    DateRoundTrip(Pages[0].0);
    DateRoundTrip(Pages[1].0);
    DateRoundTrip(Pages[2].0);
    DateRoundTrip(Pages[3].0);
  }

  lemma JuneDateText(day: int)
    requires 10 <= day <= 30
    ensures DateToString(IsoDate(2025, 6, day)) == "2025-06-" + PadDigits(day, 2)
  {
    assert YearToString(2025) == "2025";
    assert PadDigits(6, 2) == "06";
  }

  /** The pages are four consecutive days in page order, and the last page's
      overnight sets fall on 2025-06-29. */
  lemma PagesAreConsecutiveDays()
    ensures |Pages| == 4 && Pages[0].0 == IsoDate(2025, 6, 25)
    ensures forall i :: 0 < i < |Pages| ==> AddOneDay(Pages[i - 1].0) == Done(Pages[i].0)
    ensures AddOneDay(Pages[3].0) == Done(IsoDate(2025, 6, 29))
  {
  }

  // The duration lemmas below take their text as a parameter fixed by
  // `requires` rather than as a literal in the contract: the verifier would
  // otherwise evaluate `Split`, `Trim` and `ParseTime` on the literal eagerly,
  // which is far more costly than the proof itself.

  /** The listed duration `"02:00 - 03:30"` splits on its hyphen into two
      pieces, each white space on one side. */
  lemma EarlyDurationPieces(d: string)
    requires d == "02:00 - 03:30"
    ensures Split(d, '-') == ["02:00 ", " 03:30"]
  {
    SplitJoin(["02:00 ", " 03:30"], '-');
    assert Join(["02:00 ", " 03:30"], '-') == d;
  }

  /** The first piece trims to `"02:00"` and reads as 02:00. */
  lemma StartPieceReads(x: string)
    requires x == "02:00 "
    ensures ReadPiece(x) == Done(IsoTime(2, 0, 0))
  {
    var m := Trim(x);
    assert m == "02:00" by {
      assert x == "" + "02:00" + " ";
      TrimUnique("", "02:00", " ");
    }
    StartTimeReads(m);
  }

  /** `"02:00"` is the time 02:00. */
  lemma StartTimeReads(s: string)
    requires s == "02:00"
    ensures ParseTime(s) == Done(IsoTime(2, 0, 0))
  {
    assert s[..2] == "02" && s[3..5] == "00";
    assert ParseDigits("2") == Some(2);
    assert ParseDigits("02") == Some(2);
    assert ParseDigits("00") == Some(0);
  }

  /** The second piece trims to `"03:30"` and reads as 03:30. */
  lemma EndPieceReads(x: string)
    requires x == " 03:30"
    ensures ReadPiece(x) == Done(IsoTime(3, 30, 0))
  {
    var m := Trim(x);
    assert m == "03:30" by {
      assert x == " " + "03:30" + "";
      TrimUnique(" ", "03:30", "");
    }
    EndTimeReads(m);
  }

  /** `"03:30"` is the time 03:30. */
  lemma EndTimeReads(s: string)
    requires s == "03:30"
    ensures ParseTime(s) == Done(IsoTime(3, 30, 0))
  {
    assert s[..2] == "03" && s[3..5] == "30";
    assert ParseDigits("3") == Some(3);
    assert ParseDigits("03") == Some(3);
    assert ParseDigits("30") == Some(30);
  }

  /** `"02:00 - 03:30"` reads as 02:00 and 03:30. */
  lemma EarlyDuration(d: string)
    requires d == "02:00 - 03:30"
    ensures ParseDuration(d) == Done([IsoTime(2, 0, 0), IsoTime(3, 30, 0)])
  {
    EarlyDurationPieces(d);
    StartPieceReads(Split(d, '-')[0]);
    EndPieceReads(Split(d, '-')[1]);
    ParseDurationPair(d, IsoTime(2, 0, 0), IsoTime(3, 30, 0));
  }

  /** On the first page, 02:00, 03:30 and 05:59:59 fall on the second page's
      date, while 06:00, 14:00 and 23:59 keep the first page's date. */
  lemma FirstPageRollover()
    ensures RealDate(Pages[0].0, IsoTime(2, 0, 0)) == Done(Pages[1].0)
    ensures RealDate(Pages[0].0, IsoTime(3, 30, 0)) == Done(Pages[1].0)
    ensures RealDate(Pages[0].0, IsoTime(5, 59, 59)) == Done(Pages[1].0)
    ensures RealDate(Pages[0].0, IsoTime(6, 0, 0)) == Done(Pages[0].0)
    ensures RealDate(Pages[0].0, IsoTime(14, 0, 0)) == Done(Pages[0].0)
    ensures RealDate(Pages[0].0, IsoTime(23, 59, 0)) == Done(Pages[0].0)
  {
    PagesAreConsecutiveDays();
  }

  /** Adding a day crosses the end of a month and the end of a year. */
  lemma MonthAndYearEnds()
    ensures AddOneDay(IsoDate(2025, 6, 30)) == Done(IsoDate(2025, 7, 1))
    ensures AddOneDay(IsoDate(2025, 12, 31)) == Done(IsoDate(2026, 1, 1))
  {
  }

  /** February has 29 days in 2024 and 2000, which are leap years. */
  lemma LeapFebruaries()
    ensures AddOneDay(IsoDate(2024, 2, 28)) == Done(IsoDate(2024, 2, 29))
    ensures AddOneDay(IsoDate(2024, 2, 29)) == Done(IsoDate(2024, 3, 1))
    ensures AddOneDay(IsoDate(2000, 2, 28)) == Done(IsoDate(2000, 2, 29))
    ensures AddOneDay(IsoDate(2000, 2, 29)) == Done(IsoDate(2000, 3, 1))
  {
  }

  /** February has 28 days in 2025 and in 1900, a century year not divisible
      by 400. */
  lemma CommonFebruaries()
    ensures AddOneDay(IsoDate(2025, 2, 28)) == Done(IsoDate(2025, 3, 1))
    ensures AddOneDay(IsoDate(1900, 2, 28)) == Done(IsoDate(1900, 3, 1))
  {
  }

  // The end-to-end example: one entry on the first page, listed from 02:00 to
  // 03:30, whose detail payload has a description and no video URL.

  const Wednesday: PlainDate := IsoDate(2025, 6, 25)
  const Thursday: PlainDate := IsoDate(2025, 6, 26)
  const TwoAm: PlainTime := IsoTime(2, 0, 0)
  const HalfPastThree: PlainTime := IsoTime(3, 30, 0)

  /** The detail endpoint: `/x` answers with a paragraph and no video URL. */
  function DetailFor(url: string): Outcome<Performer> {
    if url == "/x" then Done(Performer("<p>Great act</p>", None)) else Failure
  }

  /** The plain text of the one description that occurs. */
  function StripParagraph(html: string): string {
    if html == "<p>Great act</p>" then "Great act" else html
  }

  /** The entry, with its duration text as a parameter. */
  function Entry(duration: string): PerformerEntry {
    PerformerEntry(Some("DJ Example"), Some(duration), Some(StageSection(Some("Main Stage"))), Some("/x"))
  }

  /** The entry on the 2025-06-25 page yields an act dated 2025-06-26 at both
      ends, with the trimmed name, stage and blurb and no `url`. The duration
      is a parameter for the same reason as in `EarlyDurationPieces`. */
  lemma EndToEnd(d: string)
    requires d == "02:00 - 03:30"
    ensures AssembleAct(Wednesday, Entry(d), DetailFor, StripParagraph)
         == Done(Act("Main Stage", "2025-06-26 02:00:00", "2025-06-26 03:30:00", "DJ Example", "Great act", None))
  {
    assert AssembleAct(Wednesday, Entry(d), DetailFor, StripParagraph)
        == Done(Act(Trim("Main Stage"), Timestamp(Thursday, TwoAm), Timestamp(Thursday, HalfPastThree),
                    Trim("DJ Example"), Trim(StripParagraph(DetailFor("/x").value.description)), None)) by {
      EntryComplete(d);
      AssembledRecord(Wednesday, Entry(d), DetailFor, StripParagraph);
    }
    NameTrims();
    StageTrims();
    BlurbTrims();
    StartStamp();
    EndStamp();
  }

  /** The entry has every field, both times roll over to Thursday and the
      detail fetch succeeds. */
  lemma EntryComplete(d: string)
    requires d == "02:00 - 03:30"
    ensures ParseDuration(d) == Done([TwoAm, HalfPastThree])
    ensures RealDate(Wednesday, TwoAm) == Done(Thursday) && RealDate(Wednesday, HalfPastThree) == Done(Thursday)
    ensures Complete(Wednesday, Entry(d), DetailFor)
  {
    EarlyDuration(d);
    FirstPageRollover();
  }

  /** The name, stage label and blurb have no white space to trim. */
  lemma NameTrims()
    ensures Trim("DJ Example") == "DJ Example"
  {
    TrimKeeps("DJ Example", 'D', 'e');
  }

  lemma StageTrims()
    ensures Trim("Main Stage") == "Main Stage"
  {
    TrimKeeps("Main Stage", 'M', 'e');
  }

  lemma BlurbTrims()
    ensures Trim(StripParagraph(DetailFor("/x").value.description)) == "Great act"
  {
    TrimKeeps("Great act", 'G', 't');
  }

  /** A string that starts and ends with a visible character is its own trim.
      The end characters are named as parameters so that the white-space test
      is made on two characters, not on the indexed literal. */
  lemma TrimKeeps(s: string, first: char, last: char)
    requires |s| >= 1 && s[0] == first && s[|s| - 1] == last
    requires !IsWhiteSpace(first) && !IsWhiteSpace(last)
    ensures Trim(s) == s
  {
    TrimFixesTrimmed(s);
  }

  /** The two timestamps, as their text. */
  lemma StartStamp()
    ensures Timestamp(Thursday, TwoAm) == "2025-06-26 02:00:00"
  {
    ThursdayText();
    TwoAmText();
  }

  lemma EndStamp()
    ensures Timestamp(Thursday, HalfPastThree) == "2025-06-26 03:30:00"
  {
    ThursdayText();
    HalfPastThreeText();
  }

  /** The text forms of the rolled date and of the two times. */
  lemma ThursdayText()
    ensures DateToString(Thursday) == "2025-06-26"
  {
    JuneDateText(26);
  }

  lemma TwoAmText()
    ensures TimeToString(TwoAm) == "02:00:00"
  {
    TimeText(TwoAm, "02", "00", "00");
    assert "02" + ":" + "00" + ":" + "00" == "02:00:00";
  }

  lemma HalfPastThreeText()
    ensures TimeToString(HalfPastThree) == "03:30:00"
  {
    TimeText(HalfPastThree, "03", "30", "00");
    assert "03" + ":" + "30" + ":" + "00" == "03:30:00";
  }

  /** The text form of a time, from the two-digit numerals of its fields. */
  lemma TimeText(t: PlainTime, hh: string, mm: string, ss: string)
    requires |hh| == 2 && ParseDigits(hh) == Some(t.hour)
    requires |mm| == 2 && ParseDigits(mm) == Some(t.minute)
    requires |ss| == 2 && ParseDigits(ss) == Some(t.second)
    ensures TimeToString(t) == hh + ":" + mm + ":" + ss
  {
    PadParseDigits(hh);
    PadParseDigits(mm);
    PadParseDigits(ss);
  }

  // A daytime example: the same entry listed from 14:00 to 15:00, whose detail
  // payload carries a video link. Neither time rolls over, and the record
  // gets a `url`.

  const TwoPm: PlainTime := IsoTime(14, 0, 0)
  const ThreePm: PlainTime := IsoTime(15, 0, 0)
  const VideoLink: string := "https://youtu.be/abc"

  /** The detail endpoint: `/x` answers with a paragraph and a video URL. */
  function DetailWithVideo(url: string): Outcome<Performer> {
    if url == "/x" then Done(Performer("<p>Great act</p>", Some(VideoLink))) else Failure
  }

  /** The entry listed from 14:00 to 15:00 on the 2025-06-25 page yields an
      act dated 2025-06-25 at both ends, with the trimmed name, stage and blurb
      and the video link as its `url`. The duration is a parameter for the
      same reason as in `EarlyDurationPieces`. */
  lemma DaytimeEndToEnd(d: string)
    requires d == "14:00 - 15:00"
    ensures AssembleAct(Wednesday, Entry(d), DetailWithVideo, StripParagraph)
         == Done(Act("Main Stage", "2025-06-25 14:00:00", "2025-06-25 15:00:00", "DJ Example", "Great act",
                     Some("https://youtu.be/abc")))
  {
    assert AssembleAct(Wednesday, Entry(d), DetailWithVideo, StripParagraph)
        == Done(Act(Trim("Main Stage"), Timestamp(Wednesday, TwoPm), Timestamp(Wednesday, ThreePm),
                    Trim("DJ Example"), Trim(StripParagraph(DetailWithVideo("/x").value.description)),
                    VideoUrl(Some(VideoLink)))) by {
      DaytimeEntryComplete(d);
      AssembledRecord(Wednesday, Entry(d), DetailWithVideo, StripParagraph);
    }
    NameTrims();
    StageTrims();
    VideoBlurbTrims();
    TwoPmStamp();
    ThreePmStamp();
  }

  /** The entry has every field, both times keep the page's date and the
      detail fetch succeeds. */
  lemma DaytimeEntryComplete(d: string)
    requires d == "14:00 - 15:00"
    ensures ParseDuration(d) == Done([TwoPm, ThreePm])
    ensures RealDate(Wednesday, TwoPm) == Done(Wednesday) && RealDate(Wednesday, ThreePm) == Done(Wednesday)
    ensures Complete(Wednesday, Entry(d), DetailWithVideo)
  {
    DaytimeDuration(d);
  }

  /** `"14:00 - 15:00"` splits into two pieces which read as 14:00 and 15:00. */
  lemma DaytimeDuration(d: string)
    requires d == "14:00 - 15:00"
    ensures ParseDuration(d) == Done([TwoPm, ThreePm])
  {
    assert Split(d, '-') == ["14:00 ", " 15:00"] by {
      SplitJoin(["14:00 ", " 15:00"], '-');
      assert Join(["14:00 ", " 15:00"], '-') == d;
    }
    TwoPmPieceReads(Split(d, '-')[0]);
    ThreePmPieceReads(Split(d, '-')[1]);
    ParseDurationPair(d, TwoPm, ThreePm);
  }

  /** The first piece trims to `"14:00"` and reads as 14:00. */
  lemma TwoPmPieceReads(x: string)
    requires x == "14:00 "
    ensures ReadPiece(x) == Done(IsoTime(14, 0, 0))
  {
    SpacedPiece(x, "", "14:00", " ", '1', '0');
    TwoPmReads("14:00");
  }

  /** A piece made of a text between two runs of white space reads as that
      text. The text's end characters are parameters for the same reason as in
      `TrimKeeps`. */
  lemma SpacedPiece(x: string, pre: string, m: string, post: string, first: char, last: char)
    requires x == pre + m + post && AllWhiteSpace(pre) && AllWhiteSpace(post)
    requires |m| >= 1 && m[0] == first && m[|m| - 1] == last
    requires !IsWhiteSpace(first) && !IsWhiteSpace(last)
    ensures ReadPiece(x) == ParseTime(m)
  {
    TrimUnique(pre, m, post);
  }

  /** `"14:00"` is the time 14:00, by `HourMinuteReads`. */
  lemma TwoPmReads(s: string)
    requires s == "14:00"
    ensures ParseTime(s) == Done(IsoTime(14, 0, 0))
  {
    ClockText(s, 14, 0, "14", "00");
  }

  /** The second piece trims to `"15:00"` and reads as 15:00. */
  lemma ThreePmPieceReads(x: string)
    requires x == " 15:00"
    ensures ReadPiece(x) == Done(IsoTime(15, 0, 0))
  {
    SpacedPiece(x, " ", "15:00", "", '1', '0');
    ThreePmReads("15:00");
  }

  /** `"15:00"` is the time 15:00, by `HourMinuteReads`. */
  lemma ThreePmReads(s: string)
    requires s == "15:00"
    ensures ParseTime(s) == Done(IsoTime(15, 0, 0))
  {
    ClockText(s, 15, 0, "15", "00");
  }

  /** An `HH:MM` text whose numerals are the padded hour and minute reads as
      that time. */
  lemma ClockText(s: string, h: nat, m: nat, hh: string, mm: string)
    requires h <= 23 && m <= 59 && PadDigits(h, 2) == hh && PadDigits(m, 2) == mm
    requires s == hh + ":" + mm
    ensures ParseTime(s) == Done(IsoTime(h, m, 0))
  {
    HourMinuteReads(h, m);
  }

  lemma VideoBlurbTrims()
    ensures Trim(StripParagraph(DetailWithVideo("/x").value.description)) == "Great act"
  {
    TrimKeeps("Great act", 'G', 't');
  }

  /** The two daytime timestamps, as their text. */
  lemma TwoPmStamp()
    ensures Timestamp(Wednesday, TwoPm) == "2025-06-25 14:00:00"
  {
    WednesdayText();
    TwoPmText();
  }

  lemma ThreePmStamp()
    ensures Timestamp(Wednesday, ThreePm) == "2025-06-25 15:00:00"
  {
    WednesdayText();
    ThreePmText();
  }

  lemma WednesdayText()
    ensures DateToString(Wednesday) == "2025-06-25"
  {
    JuneDateText(25);
  }

  lemma TwoPmText()
    ensures TimeToString(TwoPm) == "14:00:00"
  {
    TimeText(TwoPm, "14", "00", "00");
    assert "14" + ":" + "00" + ":" + "00" == "14:00:00";
  }

  lemma ThreePmText()
    ensures TimeToString(ThreePm) == "15:00:00"
  {
    TimeText(ThreePm, "15", "00", "00");
    assert "15" + ":" + "00" + ":" + "00" == "15:00:00";
  }
}
