/**
  `main` of extract-pdf-data.js: the dated snapshot of the daily report and
  the chart series, over a data directory held as values. The reply, today's
  date (`toLocaleDateString("en-CA")`) and the timestamp (`toISOString()`)
  are parameters.
 */
module DailyRun {
  import opened Results
  import opened JsValues
  import opened Replies
  import opened Artifacts
  import opened Chart

  /** The file `src/data/<today>.json`. */
  function DatedFile(today: string): string {
    today + ".json"
  }

  /** `extractedData.data.grandTotals.allApplications`; None when one of the
      reads throws, that is when `data` is not an object holding a
      `grandTotals` other than null. */
  function AllApplications(extracted: Json): (r: Option<Prop>)
    ensures r.None? <==>
      !(&& extracted.JObject? && "data" in extracted.fields
        && extracted.fields["data"].JObject? && "grandTotals" in extracted.fields["data"].fields
        && extracted.fields["data"].fields["grandTotals"] != JNull)
    ensures r.Some? && r.value.Defined? <==>
      && extracted.JObject? && "data" in extracted.fields
      && extracted.fields["data"].JObject? && "grandTotals" in extracted.fields["data"].fields
      && var totals := extracted.fields["data"].fields["grandTotals"];
         totals.JObject? && "allApplications" in totals.fields
    ensures r.Some? && r.value.Defined? ==>
      r.value.value == extracted.fields["data"].fields["grandTotals"].fields["allApplications"]
  {
    match GetProperty(Defined(extracted), "data")
    case None => None
    case Some(data) =>
      match GetProperty(data, "grandTotals")
      case None => None
      case Some(totals) => GetProperty(totals, "allApplications")
  }

  /** Lines 100-104: today's chart entry; None when a read throws. */
  function TodayEntry(extracted: Json, today: string): (r: Option<ChartEntry>)
    ensures r.Some? ==> r.value.date == today
    ensures r.Some? <==> AllApplications(extracted).Some? && !(AllApplications(extracted).value in {Undefined, Defined(JNull)})
  {
    match AllApplications(extracted)
    case None => None
    case Some(all) =>
      match GetProperty(all, "freeSpots")
      case None => None
      case Some(freeSpots) => Some(ChartEntry(today, freeSpots, GetProperty(all, "active").value))
  }

  /** A report of the expected shape gives the entry its two counts. */
  lemma TodayEntryOfReport(extracted: Json, today: string, all: map<string, Json>)
    requires extracted.JObject? && "data" in extracted.fields
    requires extracted.fields["data"].JObject? && "grandTotals" in extracted.fields["data"].fields
    requires extracted.fields["data"].fields["grandTotals"].JObject?
    requires "allApplications" in extracted.fields["data"].fields["grandTotals"].fields
    requires extracted.fields["data"].fields["grandTotals"].fields["allApplications"] == JObject(all)
    ensures TodayEntry(extracted, today) == Some(ChartEntry(today,
              if "freeSpots" in all then Defined(all["freeSpots"]) else Undefined,
              if "active" in all then Defined(all["active"]) else Undefined))
  {
  }

  /** The directory `src/data`: dated snapshots by file name, and chart.json
      (an absent chart.json reads as an empty chart). */
  datatype DataState = DataState(files: map<string, Json>, chart: seq<ChartEntry>)

  /** What one run leaves behind, and its exit code. */
  function Daily(st: DataState, resp: Response, parse: Parser, today: string, extractedAt: string): (r: (DataState, int))
    ensures r.1 == 0 || r.1 == 1
    ensures r.1 == 1 ==> r.0.chart == st.chart
    ensures ExtractDaily(resp, parse).Err? ==> r.0 == st
    ensures r.1 == 0 <==> ExtractDaily(resp, parse).Ok? && TodayEntry(ExtractDaily(resp, parse).value, today).Some?
    ensures ExtractDaily(resp, parse).Ok? ==>
      r.0.files == st.files[DatedFile(today) := WithMetadata(ExtractDaily(resp, parse).value, PdfUrl, extractedAt, DailyScript)]
    ensures r.1 == 0 ==> r.0.chart == Updated(st.chart, TodayEntry(ExtractDaily(resp, parse).value, today).value)
  {
    match ExtractDaily(resp, parse)
    case Err(_) => (st, 1)
    case Ok(x) =>
      var files := st.files[DatedFile(today) := WithMetadata(x, PdfUrl, extractedAt, DailyScript)];
      match TodayEntry(x, today)
      case None => (DataState(files, st.chart), 1)
      case Some(e) => (DataState(files, Updated(st.chart, e)), 0)
  }

  /** A run that ends with exit code 0 has recorded today in a sorted chart. */
  lemma SuccessfulRunRecordsToday(st: DataState, resp: Response, parse: Parser, today: string, extractedAt: string)
    requires UniqueDates(st.chart)
    ensures var (after, code) := Daily(st, resp, parse, today, extractedAt);
            code == 0 ==> Sorted(after.chart) && UniqueDates(after.chart)
                          && exists j :: 0 <= j < |after.chart| && after.chart[j].date == today
  {
    var (after, code) := Daily(st, resp, parse, today, extractedAt);
    if code == 0 {
      var x := ExtractDaily(resp, parse).value;
      var e := TodayEntry(x, today).value;
      UpdatedIsSortedPermutation(st.chart, e);
      UpdatedKeepsDatesUnique(st.chart, e);
      UpdatedEntries(st.chart, e);
      assert e in after.chart;
    }
  }

  /** Every run keeps the chart at one entry per date, so a chart that
      started absent never holds two entries for a day. */
  lemma RunKeepsDatesUnique(st: DataState, resp: Response, parse: Parser, today: string, extractedAt: string)
    requires UniqueDates(st.chart)
    ensures UniqueDates(Daily(st, resp, parse, today, extractedAt).0.chart)
  {
    var x := ExtractDaily(resp, parse);
    if x.Ok? && TodayEntry(x.value, today).Some? {
      UpdatedKeepsDatesUnique(st.chart, TodayEntry(x.value, today).value);
    }
  }

  /** Running again on the same day with the same reply leaves what one run
      leaves, except for the later timestamp. */
  lemma RerunSameDay(st: DataState, resp: Response, parse: Parser, today: string, t1: string, t2: string)
    requires UniqueDates(st.chart)
    ensures Daily(Daily(st, resp, parse, today, t1).0, resp, parse, today, t2) == Daily(st, resp, parse, today, t2)
  {
    var x := ExtractDaily(resp, parse);
    if x.Ok? {
      var once := Daily(st, resp, parse, today, t1).0;
      OverwriteFile(st.files, DatedFile(today), WithMetadata(x.value, PdfUrl, t1, DailyScript),
                    WithMetadata(x.value, PdfUrl, t2, DailyScript));
      if TodayEntry(x.value, today).Some? {
        RerunIsIdempotent(st.chart, TodayEntry(x.value, today).value);
      }
    }
  }

  /** Writing a file twice leaves the second contents. */
  lemma OverwriteFile(files: map<string, Json>, name: string, first: Json, second: Json)
    ensures files[name := first][name := second] == files[name := second]
  {
  }

  /** The data directory, changed in place by a run. */
  class DataDir {
    var files: map<string, Json>
    var chart: seq<ChartEntry>

    constructor(files: map<string, Json>, chart: seq<ChartEntry>)
      ensures this.files == files && this.chart == chart
    {
      this.files := files;
      this.chart := chart;
    }

    /** Lines 74-122: extract, write the dated snapshot, update the chart. */
    method Run(resp: Response, parse: Parser, today: string, extractedAt: string) returns (exitCode: int)
      modifies this
      ensures (DataState(files, chart), exitCode) == Daily(DataState(old(files), old(chart)), resp, parse, today, extractedAt)
    {
      var extracted := ExtractDaily(resp, parse);
      if extracted.Err? {
        return 1;
      }
      var output := WithMetadata(extracted.value, PdfUrl, extractedAt, DailyScript);
      files := files[DatedFile(today) := output];
      var chartEntry := TodayEntry(extracted.value, today);
      if chartEntry.None? {
        return 1;
      }
      var chartData := new ChartStore(chart);
      chartData.Update(chartEntry.value);
      chart := chartData.entries;
      return 0;
    }
  }
}
