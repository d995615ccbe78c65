/** The lineup scraper of main.ts: `parsePage` turns each performer entry of a
    day's schedule page into an `Act`, and the driver joins all pages and
    flattens their acts. HTTP, the DOM library and printing are parameters or
    left out; what remains is the slot assembler and the all-or-nothing joins. */
module Scraper {
  import opened Outcomes
  import opened JsString
  import opened Temporal
  import opened Digits

  /** The `.program-stage-section` ancestor of an entry; `stageLabel` is the inner
      text of its `.program-stage-label` element, when it has one. */
  datatype StageSection = StageSection(stageLabel: Option<string>)

  /** One `.program-performer` element, as the DOM presents it. */
  datatype PerformerEntry = PerformerEntry(
    name: Option<string>,             // inner text of `.program-performer-name`
    duration: Option<string>,         // inner text of `.program-duration`
    section: Option<StageSection>,    // closest `.program-stage-section`
    dataUrl: Option<string>)          // `data-url` of `.program-performer-link`

  /** The `performer` object of a detail payload; `youtubeUrl` is `None` when
      the key is missing or null. */
  datatype Performer = Performer(description: string, youtubeUrl: Option<string>)

  /** An output record; `url` is `None` when the key is absent. */
  datatype Act = Act(stage: string, start: string, end: string, act: string, blurb: string, url: Option<string>)

  /** `fetchPerformer`: the detail payload for a `data-url`, or a failure. */
  type PerformerFetch = string -> Outcome<Performer>

  /** The plain text of an HTML fragment, as the DOM library extracts it. */
  type TextContent = string -> string

  /** `fetchDocument` followed by `querySelectorAll(".program-performer")`:
      the entries of a page in document order, or a failure. */
  type DocumentFetch = string -> Outcome<seq<PerformerEntry>>

  // ---------------------------------------------------------------------
  // The slot assembler

  /** One piece of the duration text, trimmed and read as a time. */
  function ReadPiece(piece: string): Outcome<PlainTime> {
    ParseTime(Trim(piece))
  }

  /** A piece that reads is `HH:MM` or `HH:MM:SS` once trimmed, and its time
      prints with the hour and minute the piece showed. White space around the
      piece does not matter. */
  lemma ReadPieceEcho(piece: string)
    requires ReadPiece(piece).Done?
    ensures |Trim(piece)| == 5 || |Trim(piece)| == 8
    ensures TimeToString(ReadPiece(piece).value)[..5] == Trim(piece)[..5]
    ensures ReadPiece(Trim(piece)) == ReadPiece(piece)
  {
    HourMinuteEcho(Trim(piece));
    TrimIdempotent(piece);
  }

  /** The duration text split on `-`, every piece read; all must parse. */
  function ParseDuration(duration: string): (r: Outcome<seq<PlainTime>>)
    ensures r.Done? ==> forall i :: 0 <= i < |Split(duration, '-')| ==> ReadPiece(Split(duration, '-')[i]).Done?
    ensures r.Done? <== forall i :: 0 <= i < |Split(duration, '-')| ==> ReadPiece(Split(duration, '-')[i]).Done?
    ensures r.Done? ==> 1 <= |r.value| == |Split(duration, '-')|
    ensures r.Done? ==> forall i :: 0 <= i < |Split(duration, '-')| ==> ReadPiece(Split(duration, '-')[i]) == Done(r.value[i])
  {
    var pieces := Split(duration, '-');
    var r := MapAll(pieces, ReadPiece);
    assert (forall i :: 0 <= i < |pieces| ==> ReadPiece(pieces[i]).Done?) ==> r.Done? by {
      if forall i :: 0 <= i < |pieces| ==> ReadPiece(pieces[i]).Done? {
        forall i | 0 <= i < |pieces| ensures ReadPiece.requires(pieces[i]) && ReadPiece(pieces[i]).Done? {
        }
      }
    }
    r
  }

  /** The overnight rollover rule: a listed time before 06:00 falls on the
      calendar day after the page's date, any other time on the page's date.
      Adding the day fails only on Temporal's last date. */
  function RealDate(date: PlainDate, time: PlainTime): (r: Outcome<PlainDate>)
    ensures r.Failure? <==> time.hour < 6 && date == LastDay
    ensures r.Done? ==> (r.value == date <==> time.hour >= 6)
    ensures r.Done? && time.hour < 6 ==> r.value == NextDay(date)
  {
    DateLimits();
    EpochDayOrder(date, LastDay);
    if time.hour < 6 then AddOneDay(date) else Done(date)
  }

  /** `start` and `end`: the date's text form, one space, the time's. The only
      space is the one right after the date. */
  function Timestamp(date: PlainDate, time: PlainTime): (r: string)
    ensures |r| == |DateToString(date)| + 9 && r[|DateToString(date)|] == ' '
    ensures forall i :: 0 <= i < |r| && r[i] == ' ' ==> i == |DateToString(date)|
  {
    var a, b := DateToString(date), TimeToString(time);
    SpaceOnlyAtJoin(a, b);
    a + " " + b
  }

  /** Reads a timestamp back by splitting it at the space. */
  function ParseTimestamp(s: string): Outcome<(PlainDate, PlainTime)> {
    var parts := Split(s, ' ');
    if |parts| != 2 then Failure
    else
      var date :- ParseDate(parts[0]);
      var time :- ParseTime(parts[1]);
      Done((date, time))
  }

  /** The conditional spread `...youtube_url ? { url: youtube_url } : {}`. */
  function VideoUrl(youtubeUrl: Option<string>): (r: Option<string>)
    ensures r.Some? <==> youtubeUrl.Some? && youtubeUrl.value != ""
    ensures r.Some? ==> r == youtubeUrl
  {
    match youtubeUrl
    case Some(u) => if u != "" then Some(u) else None
    case None => None
  }

  /** The `parsePage` callback for one performer entry, step by step as the
      source takes them; each `?? throw_()` is a `Required`. Destructuring the
      parsed pieces always defines `startTime` (splitting gives at least one
      piece) but leaves `endTime` undefined when there is only one. */
  function AssembleAct(date: PlainDate, entry: PerformerEntry, fetch: PerformerFetch, textContent: TextContent): (r: Outcome<Act>)
    ensures r.Done? ==> IsTrimmed(r.value.act) && IsTrimmed(r.value.stage) && IsTrimmed(r.value.blurb)
    ensures r.Done? ==> r.value.url.Some? ==> r.value.url.value != ""
  {
    var name :- Required(entry.name);
    var duration :- Required(entry.duration);
    var times :- ParseDuration(duration);
    var endTime := if |times| >= 2 then Some(times[1]) else None;
    AssembleSlot(date, Trim(name), times[0], endTime, entry.section, entry.dataUrl, fetch, textContent)
  }

  /** The rest of the callback once the act's name and times are known: the
      stage, the rolled dates (reading the hour of an undefined `endTime`
      throws), the detail fetch and the record. */
  function AssembleSlot(date: PlainDate, act: string, startTime: PlainTime, endTime: Option<PlainTime>,
                        section: Option<StageSection>, dataUrl: Option<string>,
                        fetch: PerformerFetch, textContent: TextContent): (r: Outcome<Act>)
    ensures r.Done? ==> r.value.act == act && IsTrimmed(r.value.stage) && IsTrimmed(r.value.blurb)
    ensures r.Done? ==> r.value.url.Some? ==> r.value.url.value != ""
  {
    var section :- Required(section);
    var stageLabel :- Required(section.stageLabel);
    var startDate :- RealDate(date, startTime);
    var endTime :- Required(endTime);
    var endDate :- RealDate(date, endTime);
    var dataUrl :- Required(dataUrl);
    var performer :- fetch(dataUrl);
    Done(Act(Trim(stageLabel), Timestamp(startDate, startTime), Timestamp(endDate, endTime),
             act, Trim(textContent(performer.description)), VideoUrl(performer.youtubeUrl)))
  }

  // ---------------------------------------------------------------------
  // Pages and the run

  /** `parsePage`: `Promise.all` over the entries, so one act per entry in
      document order, or a failure of the whole page when any entry fails. */
  function ParsePage(date: PlainDate, entries: seq<PerformerEntry>, fetch: PerformerFetch, textContent: TextContent): (r: Outcome<seq<Act>>)
    ensures r.Done? <==> forall i :: 0 <= i < |entries| ==> AssembleAct(date, entries[i], fetch, textContent).Done?
    ensures r.Done? ==> |r.value| == |entries|
    ensures r.Done? ==> forall i :: 0 <= i < |entries| ==> AssembleAct(date, entries[i], fetch, textContent) == Done(r.value[i])
  {
    MapAll(entries, (entry: PerformerEntry) => AssembleAct(date, entry, fetch, textContent))
  }

  /** One element of `PAGES`: the page's nominal date and its URL. */
  type ScheduleSource = (PlainDate, string)

  /** The driver's callback for one page: fetch the document, then parse it.
      The page fails when its document does not arrive; otherwise it yields
      one act per entry, in document order, when every entry assembles. */
  function ScrapePage(source: ScheduleSource, fetchDocument: DocumentFetch, fetch: PerformerFetch, textContent: TextContent): (r: Outcome<seq<Act>>)
    ensures fetchDocument(source.1).Failure? ==> r.Failure?
    ensures r.Done? ==> var entries := fetchDocument(source.1).value;
      && |r.value| == |entries|
      && forall i :: 0 <= i < |entries| ==> AssembleAct(source.0, entries[i], fetch, textContent) == Done(r.value[i])
    ensures fetchDocument(source.1).Done? ==> var entries := fetchDocument(source.1).value;
      (forall i :: 0 <= i < |entries| ==> AssembleAct(source.0, entries[i], fetch, textContent).Done?) ==> r.Done?
  {
    var entries :- fetchDocument(source.1);
    ParsePage(source.0, entries, fetch, textContent)
  }

  /** The top-level `Promise.all` over the pages followed by `.flat()`. */
  function Run(sources: seq<ScheduleSource>, fetchDocument: DocumentFetch, fetch: PerformerFetch, textContent: TextContent): (r: Outcome<seq<Act>>)
    ensures r.Done? <==> forall i :: 0 <= i < |sources| ==> ScrapePage(sources[i], fetchDocument, fetch, textContent).Done?
  {
    JoinFlat(sources, (source: ScheduleSource) => ScrapePage(source, fetchDocument, fetch, textContent))
  }

  /** A string with no space, one space, and another string with no space:
      the joint holds the only space. */
  lemma SpaceOnlyAtJoin(a: string, b: string)
    requires ' ' !in a && ' ' !in b
    ensures forall i :: 0 <= i < |a + " " + b| && (a + " " + b)[i] == ' ' ==> i == |a|
  {
    var r := a + " " + b;
    forall i | 0 <= i < |r| && i != |a| ensures r[i] != ' ' {
      if i < |a| {
        assert r[i] == a[i] && a[i] in a;
      } else {
        assert r[i] == b[i - |a| - 1] && b[i - |a| - 1] in b;
      }
    }
  }

  // ---------------------------------------------------------------------
  // Properties of the assembler

  /** A timestamp reads back, split at its space, as the date and time it was
      written from. */
  lemma TimestampRoundTrip(date: PlainDate, time: PlainTime)
    ensures ParseTimestamp(Timestamp(date, time)) == Done((date, time))
  {
    var ds, ts := DateToString(date), TimeToString(time);
    assert Join([ds, ts], ' ') == Timestamp(date, time);
    SplitJoin([ds, ts], ' ');
    DateRoundTrip(date);
    TimeRoundTrip(time);
  }

  /** For a four-digit year the timestamp is exactly `YYYY-MM-DD HH:MM:SS`:
      nineteen characters, zero-padded digit fields and fixed separators. */
  lemma TimestampShape(date: PlainDate, time: PlainTime)
    requires 0 <= date.year <= 9999
    ensures var s := Timestamp(date, time);
      && |s| == 19
      && s[4] == '-' && s[7] == '-' && s[10] == ' ' && s[13] == ':' && s[16] == ':'
      && AllDigits(s[..4]) && AllDigits(s[5..7]) && AllDigits(s[8..10])
      && AllDigits(s[11..13]) && AllDigits(s[14..16]) && AllDigits(s[17..])
      && s[..10] == DateToString(date) && s[11..] == TimeToString(time)
  {
    var ds, ts := DateToString(date), TimeToString(time);
    var s := Timestamp(date, time);
    DateShape(date);
    TimeShape(time);
    assert s[..10] == ds && s[11..] == ts;
    assert s[..4] == ds[..4] && s[5..7] == ds[5..7] && s[8..10] == ds[8..];
    assert s[11..13] == ts[..2] && s[14..16] == ts[3..5] && s[17..] == ts[6..];
  }

  /** The rollover rule stated on calendar dates: a time from 06:00 on keeps the
      page's date; an earlier time moves to the very next calendar day. */
  lemma RolloverRule(date: PlainDate, time: PlainTime)
    requires RealDate(date, time).Done?
    ensures var day := RealDate(date, time).value;
      && (day == date <==> time.hour >= 6)
      && (time.hour < 6 ==> Before(date, day) && forall e :: IsIsoDate(e) && Before(date, e) ==> !Before(e, day))
  {
    var day := RealDate(date, time).value;
    EpochDayOrder(date, day);
    if time.hour < 6 {
      forall e | IsIsoDate(e) && Before(date, e) ensures !Before(e, day) {
        AddOneDayIsNext(date, e);
      }
    }
  }

  /** A listed time as a timestamp shows: it reads back as that time, on the
      page's date or, before 06:00, on the next day. */
  predicate ShowsSlot(stamp: string, date: PlainDate, time: PlainTime) {
    var parsed := ParseTimestamp(stamp);
    && parsed.Done?
    && parsed.value.1 == time
    && EpochDay(parsed.value.0) == EpochDay(date) + (if time.hour < 6 then 1 else 0)
  }

  /** Every required field is present, the duration has at least two pieces
      and all of them parse, both rolled dates exist and the detail fetch
      succeeds. */
  predicate Complete(date: PlainDate, entry: PerformerEntry, fetch: PerformerFetch) {
    && entry.name.Some?
    && entry.duration.Some?
    && entry.section.Some?
    && entry.section.value.stageLabel.Some?
    && entry.dataUrl.Some?
    && var times := ParseDuration(entry.duration.value);
    && times.Done? && |times.value| >= 2
    && RealDate(date, times.value[0]).Done?
    && RealDate(date, times.value[1]).Done?
    && fetch(entry.dataUrl.value).Done?
  }

  /** The rest of the callback succeeds exactly when the stage label and the
      data URL are present, there is an end time, both rolled dates exist and
      the detail fetch succeeds. */
  lemma SlotSucceedsIff(date: PlainDate, act: string, startTime: PlainTime, endTime: Option<PlainTime>,
                        section: Option<StageSection>, dataUrl: Option<string>,
                        fetch: PerformerFetch, textContent: TextContent)
    ensures AssembleSlot(date, act, startTime, endTime, section, dataUrl, fetch, textContent).Done? <==>
      && section.Some? && section.value.stageLabel.Some?
      && RealDate(date, startTime).Done?
      && endTime.Some? && RealDate(date, endTime.value).Done?
      && dataUrl.Some? && fetch(dataUrl.value).Done?
  {
  }

  /** A duration of exactly two pieces, both readable, reads as those two
      times, start then end. */
  lemma ParseDurationPair(d: string, start: PlainTime, end: PlainTime)
    requires |Split(d, '-')| == 2
    requires ReadPiece(Split(d, '-')[0]) == Done(start) && ReadPiece(Split(d, '-')[1]) == Done(end)
    ensures ParseDuration(d) == Done([start, end])
  {
    var pieces := Split(d, '-');
    var r := ParseDuration(d);
    assert r.Done? && |r.value| == 2 by {
      forall i | 0 <= i < |pieces| ensures ReadPiece(pieces[i]).Done? {
        assert i == 0 || i == 1;
      }
    }
    assert r.value[0] == start by {
      assert ReadPiece(pieces[0]) == Done(r.value[0]);
    }
    assert r.value[1] == end by {
      assert ReadPiece(pieces[1]) == Done(r.value[1]);
    }
    assert r.value == [start, end];
  }

  /** Once the name and the duration are read, the callback is the rest of it
      on the first time and, when there is one, the second. */
  lemma AssembleActSteps(date: PlainDate, entry: PerformerEntry, fetch: PerformerFetch, textContent: TextContent,
                         name: string, duration: string, times: seq<PlainTime>)
    requires entry.name == Some(name) && entry.duration == Some(duration) && ParseDuration(duration) == Done(times)
    ensures AssembleAct(date, entry, fetch, textContent) ==
      AssembleSlot(date, Trim(name), times[0], if |times| >= 2 then Some(times[1]) else None,
                   entry.section, entry.dataUrl, fetch, textContent)
  {
  }

  /** The record a complete entry yields, field by field. */
  lemma AssembledRecord(date: PlainDate, entry: PerformerEntry, fetch: PerformerFetch, textContent: TextContent)
    requires Complete(date, entry, fetch)
    ensures var times := ParseDuration(entry.duration.value).value;
      var performer := fetch(entry.dataUrl.value).value;
      AssembleAct(date, entry, fetch, textContent)
      == Done(Act(Trim(entry.section.value.stageLabel.value),
                  Timestamp(RealDate(date, times[0]).value, times[0]),
                  Timestamp(RealDate(date, times[1]).value, times[1]),
                  Trim(entry.name.value), Trim(textContent(performer.description)), VideoUrl(performer.youtubeUrl)))
  {
    AssembleActSteps(date, entry, fetch, textContent, entry.name.value, entry.duration.value,
                     ParseDuration(entry.duration.value).value);
  }

  /** An entry yields an act exactly when it is complete; any missing field,
      unreadable or single-piece duration, out-of-range date or failed fetch
      fails it. */
  lemma EntrySucceedsIffComplete(date: PlainDate, entry: PerformerEntry, fetch: PerformerFetch, textContent: TextContent)
    ensures AssembleAct(date, entry, fetch, textContent).Done? <==> Complete(date, entry, fetch)
  {
    if entry.name.Some? && entry.duration.Some? && ParseDuration(entry.duration.value).Done? {
      var times := ParseDuration(entry.duration.value).value;
      AssembleActSteps(date, entry, fetch, textContent, entry.name.value, entry.duration.value, times);
      SlotSucceedsIff(date, Trim(entry.name.value), times[0], if |times| >= 2 then Some(times[1]) else None,
                      entry.section, entry.dataUrl, fetch, textContent);
    }
  }

  /** The act of a complete entry: the trimmed name, stage label and blurb, the
      video URL only when the payload has a non-empty one, and start and end
      showing the first and second listed times under the rollover rule, each
      judged on its own hour. */
  lemma AssembledAct(date: PlainDate, entry: PerformerEntry, fetch: PerformerFetch, textContent: TextContent)
    requires Complete(date, entry, fetch)
    ensures var a := AssembleAct(date, entry, fetch, textContent).value;
      var times := ParseDuration(entry.duration.value).value;
      var performer := fetch(entry.dataUrl.value).value;
      && a.act == Trim(entry.name.value)
      && a.stage == Trim(entry.section.value.stageLabel.value)
      && a.blurb == Trim(textContent(performer.description))
      && (a.url.Some? <==> performer.youtubeUrl.Some? && performer.youtubeUrl.value != "")
      && (a.url.Some? ==> a.url == performer.youtubeUrl)
      && ShowsSlot(a.start, date, times[0])
      && ShowsSlot(a.end, date, times[1])
  {
    var times := ParseDuration(entry.duration.value).value;
    var startDate := RealDate(date, times[0]).value;
    var endDate := RealDate(date, times[1]).value;
    TimestampRoundTrip(startDate, times[0]);
    TimestampRoundTrip(endDate, times[1]);
  }

  /** A missing required field fails the entry, whatever else it holds. */
  lemma MissingFieldFails(date: PlainDate, entry: PerformerEntry, fetch: PerformerFetch, textContent: TextContent)
    requires || entry.name.None? || entry.duration.None? || entry.section.None?
             || entry.section.value.stageLabel.None? || entry.dataUrl.None?
    ensures AssembleAct(date, entry, fetch, textContent) == Failure
  {
    EntrySucceedsIffComplete(date, entry, fetch, textContent);
  }

  /** A duration whose pieces do not all parse, or that has a single piece
      (so that `endTime` is undefined), fails the entry. */
  lemma BadDurationFails(date: PlainDate, entry: PerformerEntry, fetch: PerformerFetch, textContent: TextContent)
    requires entry.duration.Some?
    requires var pieces := Split(entry.duration.value, '-');
      || |pieces| == 1
      || exists i :: 0 <= i < |pieces| && ReadPiece(pieces[i]).Failure?
    ensures AssembleAct(date, entry, fetch, textContent) == Failure
  {
    var d := entry.duration.value;
    if entry.name.Some? && ParseDuration(d).Done? {
      var times := ParseDuration(d).value;
      assert |times| == 1;
      AssembleActSteps(date, entry, fetch, textContent, entry.name.value, d, times);
      SlotSucceedsIff(date, Trim(entry.name.value), times[0], None, entry.section, entry.dataUrl, fetch, textContent);
    }
  }

  /** Reading `d + "-" + extra` reads the pieces of `d`, then those of
      `extra`; one unreadable piece on either side fails it. */
  lemma ParseDurationAppend(d: string, extra: string)
    ensures ParseDuration(d + "-" + extra) ==
      if ParseDuration(d).Done? && ParseDuration(extra).Done?
      then Done(ParseDuration(d).value + ParseDuration(extra).value)
      else Failure
  {
    assert d + "-" + extra == d + ['-'] + extra;
    SplitAppend(d, '-', extra);
    MapAllAppend(Split(d, '-'), Split(extra, '-'), ReadPiece);
  }

  /** Pieces after the second are parsed but otherwise ignored: appending `-`
      and more parseable pieces to a duration of at least two pieces changes
      nothing. */
  lemma ExtraPiecesIgnored(date: PlainDate, entry: PerformerEntry, extra: string, fetch: PerformerFetch, textContent: TextContent)
    requires entry.duration.Some? && |Split(entry.duration.value, '-')| >= 2
    requires ParseDuration(extra).Done?
    ensures AssembleAct(date, entry.(duration := Some(entry.duration.value + "-" + extra)), fetch, textContent)
         == AssembleAct(date, entry, fetch, textContent)
  {
    var d := entry.duration.value;
    var longerEntry := entry.(duration := Some(d + "-" + extra));
    var times := ParseDuration(d);
    if entry.name.None? {
      assert AssembleAct(date, entry, fetch, textContent) == Failure;
      assert AssembleAct(date, longerEntry, fetch, textContent) == Failure;
    } else if times.Failure? {
      assert ParseDuration(d + "-" + extra).Failure? by { ParseDurationAppend(d, extra); }
      assert AssembleAct(date, entry, fetch, textContent) == Failure;
      assert AssembleAct(date, longerEntry, fetch, textContent) == Failure;
    } else {
      var t := times.value;
      var slot := AssembleSlot(date, Trim(entry.name.value), t[0], Some(t[1]), entry.section, entry.dataUrl, fetch, textContent);
      assert AssembleAct(date, entry, fetch, textContent) == slot by {
        AssembleActSteps(date, entry, fetch, textContent, entry.name.value, d, t);
      }
      assert AssembleAct(date, longerEntry, fetch, textContent) == slot by {
        var longer := ParseDuration(d + "-" + extra);
        assert longer.Done? && longer.value == t + ParseDuration(extra).value by { ParseDurationAppend(d, extra); }
        assert |longer.value| >= 2 && longer.value[0] == t[0] && longer.value[1] == t[1];
        AssembleActSteps(date, longerEntry, fetch, textContent, entry.name.value, d + "-" + extra, longer.value);
      }
    }
  }


  /** The text fields of an act are already trimmed: trimming again changes
      nothing. */
  lemma ActFieldsTrimmed(date: PlainDate, entry: PerformerEntry, fetch: PerformerFetch, textContent: TextContent)
    requires AssembleAct(date, entry, fetch, textContent).Done?
    ensures var a := AssembleAct(date, entry, fetch, textContent).value;
      Trim(a.act) == a.act && Trim(a.stage) == a.stage && Trim(a.blurb) == a.blurb
  {
    var a := AssembleAct(date, entry, fetch, textContent).value;
    TrimFixesTrimmed(a.act);
    TrimFixesTrimmed(a.stage);
    TrimFixesTrimmed(a.blurb);
  }

  // ---------------------------------------------------------------------
  // Properties of the joins

  /** The acts of a run over two lists of pages are the acts of the first list
      followed by those of the second, and a failure on either side fails the
      run: the output follows the order of the pages, whatever order the
      fetches complete in. */
  lemma RunAppend(xs: seq<ScheduleSource>, ys: seq<ScheduleSource>, fetchDocument: DocumentFetch, fetch: PerformerFetch, textContent: TextContent)
    ensures Run(xs + ys, fetchDocument, fetch, textContent) ==
      if Run(xs, fetchDocument, fetch, textContent).Done? && Run(ys, fetchDocument, fetch, textContent).Done?
      then Done(Run(xs, fetchDocument, fetch, textContent).value + Run(ys, fetchDocument, fetch, textContent).value)
      else Failure
  {
    JoinFlatAppend(xs, ys, (source: ScheduleSource) => ScrapePage(source, fetchDocument, fetch, textContent));
  }

  /** A run over one page is that page's acts. */
  lemma RunSingle(source: ScheduleSource, fetchDocument: DocumentFetch, fetch: PerformerFetch, textContent: TextContent)
    ensures Run([source], fetchDocument, fetch, textContent) == ScrapePage(source, fetchDocument, fetch, textContent)
  {
    JoinFlatSingle(source, (s: ScheduleSource) => ScrapePage(s, fetchDocument, fetch, textContent));
  }
}
