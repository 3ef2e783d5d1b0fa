/** The HTML presenter of the daily email (email_send.py:60-128): the
    summary totals, the reply rate, the three alert lists rendered as HTML
    lists, the subject line, and the fixed result for an empty day. The
    styling text around the dynamic parts is kept as constant frame pieces. */
module EmailDigest {
  import opened Text
  import opened Metrics
  import opened ReplyRate
  import opened Alerts

  /** LOW_LEADS_THRESHOLD and LOW_REPLY_COUNT_THRESHOLD, read once at start-up. */
  datatype Thresholds = Thresholds(lowLeads: int, lowReplyCount: int)

  const DefaultThresholds := Thresholds(250, 5)

  // ---------- fixed texts ----------

  const NoDataHtml := "<p>No data for IST yesterday.</p>"
  const NoDataSubject := "Daily Campaign Alerts"
  const SubjectPrefix := "\U{26A0}\U{FE0F} Daily Campaign Alerts: "
  const PlainTextFallback := "Daily Campaign Alerts. Open in an HTML-capable mail client."

  const NoneParagraph := "<p" + " style=\"font-size:14px;margin:0 0 8px;\">\U{2705} None</p>"
  const ListOpen := "<ul" + " style=\"padding-left:20px;margin:0;font-size:14px;line-height:1.6;\">"
  const ListClose := "</ul>"

  const LeadsLabel := "Leads"
  const RepliesLabel := "Replies"
  const PositivesLabel := "Positive Replies"

  /** The document's static text, in order; the dynamic pieces go between
      consecutive frame pieces. */
  const Frame0 := "<div" + " style=\"font-family:Arial,sans-serif;color:#333;max-width:600px;margin:0 auto;line-height:1.6;\">\n"
      + "  <div style=\"background:#0052CC;color:#fff;padding:16px;border-radius:4px;\">\n"
      + "    <h2 style=\"margin:0;font-size:20px;\">\U{26A0}\U{FE0F} Daily Campaign Alerts</h2>\n"
      + "    <p style=\"margin:4px 0 0;font-size:14px;\"><strong>Date:</strong> "
  const Frame1 := "</p>\n  </div>\n\n"
      + "  <div style=\"padding:16px;background:#f0f4ff;border-radius:4px;margin-top:8px;\">\n"
      + "    <h3 style=\"margin:0 0 8px;font-size:16px;\">\U{1F4CA} Yesterday\U{2019}s Summary</h3>\n"
      + "    <ul style=\"padding-left:20px;margin:0;font-size:14px;\">\n"
      + "      <li>Total Emails Sent: "
  const Frame2 := "</li>\n      <li>New Leads: "
  const Frame3 := "</li>\n      <li>Replies: "
  const Frame4 := "</li>\n      <li>Positive Replies: "
  const Frame5 := "</li>\n      <li>Reply Rate: "
  const Frame6 := "</li>\n    </ul>\n  </div>\n\n"
      + "  <div style=\"padding:16px;background:#fff3cd;border-radius:4px;margin-top:12px;\">\n"
      + "    <h3 style=\"margin:0 0 8px;font-size:16px;color:#856404;\">\U{1F4C9} Accounts with &lt; "
  const Frame7 := " New Leads Contacted</h3>\n    "
  const Frame8 := "\n  </div>\n\n"
      + "  <div style=\"padding:16px;background:#f1dfd1;border-radius:4px;margin-top:12px;\">\n"
      + "    <h3 style=\"margin:0 0 8px;font-size:16px;color:#602f0c;\">\U{1F5E8}\U{FE0F} Accounts with \U{2264} "
  const Frame9 := " Replies</h3>\n    "
  const Frame10 := "\n  </div>\n\n"
      + "  <div style=\"padding:16px;background:#f8d7da;border-radius:4px;margin-top:12px;\">\n"
      + "    <h3 style=\"margin:0 0 8px;font-size:16px;color:#721c24;\">\U{1F6A8} Accounts with 0 Positive Replies</h3>\n    "
  const Frame11 := "\n  </div>\n\n"
      + "  <p style=\"font-size:12px;color:#666;margin-top:12px;\">\n"
      + "    Automated notification, please do not reply.\n"
      + "  </p>\n</div>\n"

  const HtmlFrame: seq<string> := [Frame0, Frame1, Frame2, Frame3, Frame4, Frame5,
                                   Frame6, Frame7, Frame8, Frame9, Frame10, Frame11]

  /** `s` begins with `p`. */
  predicate StartsWith(s: string, p: string) {
    |p| <= |s| && s[..|p|] == p
  }

  /** `s` ends with `p`. */
  predicate EndsWith(s: string, p: string) {
    |p| <= |s| && s[|s| - |p|..] == p
  }

  /** Interleaves the frame with the holes: frame[0] hole[0] frame[1] ... */
  function Fill(frame: seq<string>, holes: seq<string>): (r: string)
    requires |frame| == |holes| + 1
    ensures StartsWith(r, frame[0])
  {
    if holes == [] then frame[0] else frame[0] + holes[0] + Fill(frame[1..], holes[1..])
  }

  /** The first `k` frame pieces, each followed by its hole. */
  function Interleave(frame: seq<string>, holes: seq<string>, k: nat): string
    requires k <= |frame| && k <= |holes|
  {
    if k == 0 then "" else frame[0] + holes[0] + Interleave(frame[1..], holes[1..], k - 1)
  }

  /** Hole `k` sits between frame pieces `k` and `k + 1`: the filled frame is
      the first `k` pieces with their holes, then piece `k`, hole `k`, and the
      filled remainder, which starts with piece `k + 1`. */
  lemma {:induction false} FillAt(frame: seq<string>, holes: seq<string>, k: nat)
    requires |frame| == |holes| + 1 && k < |holes|
    ensures Fill(frame, holes)
      == Interleave(frame, holes, k) + (frame[k] + holes[k] + Fill(frame[k + 1..], holes[k + 1..]))
    decreases k
  {
    if k > 0 {
      var f, h := frame[1..], holes[1..];
      FillAt(f, h, k - 1);
      assert f[k - 1] == frame[k] && h[k - 1] == holes[k];
      assert f[k..] == frame[k + 1..] && h[k..] == holes[k + 1..];
    }
  }

  // ---------- render_list ----------

  function ItemLine(e: Entry, unit: string): string {
    "<li><strong>" + e.name + "</strong>: " + NatToString(e.value) + " " + unit + "</li>"
  }

  function ItemLines(items: seq<Entry>, unit: string): (lines: seq<string>)
    ensures |lines| == |items|
    ensures forall k :: 0 <= k < |items| ==> lines[k] == ItemLine(items[k], unit)
  {
    seq(|items|, k requires 0 <= k < |items| => ItemLine(items[k], unit))
  }

  /** The nested `render_list`: the "None" paragraph for an empty list,
      otherwise one `<li>` line per item joined by newlines in one `<ul>`. */
  function RenderList(items: seq<Entry>, unit: string): (html: string)
    ensures items == [] ==> html == NoneParagraph
  {
    if items == [] then NoneParagraph
    else ListOpen + Join("\n", ItemLines(items, unit)) + ListClose
  }

  /** The "None" marker is shown exactly for an empty list. */
  lemma RenderListNoneIff(items: seq<Entry>, unit: string)
    ensures RenderList(items, unit) == NoneParagraph <==> items == []
  {
    if items != [] {
      var html := RenderList(items, unit);
      assert html[..|ListOpen|] == ListOpen;
      assert html[1] == ListOpen[1] == 'u';
      assert NoneParagraph[1] == 'p';
    }
  }

  lemma ItemLineNoNewline(e: Entry, unit: string)
    requires '\n' !in e.name && '\n' !in unit
    ensures '\n' !in ItemLine(e, unit)
  {
    var digits := NatToString(e.value);
    NatToStringCanonical(e.value);
    assert '\n' !in digits by {
      forall i | 0 <= i < |digits| ensures digits[i] != '\n' {
        assert IsDigit(digits[i]);
      }
    }
  }

  /** A rendered non-empty list is one `<ul>` whose body splits at the
      newlines into exactly the item lines, one per item, in list order
      (when no name or unit holds a newline). */
  lemma RenderListLines(items: seq<Entry>, unit: string)
    requires items != []
    requires '\n' !in unit && forall e :: e in items ==> '\n' !in e.name
    ensures var html := RenderList(items, unit);
      && |ListOpen| + |ListClose| <= |html|
      && StartsWith(html, ListOpen) && EndsWith(html, ListClose)
      && Split(html[|ListOpen|..|html| - |ListClose|], '\n') == ItemLines(items, unit)
  {
    var lines := ItemLines(items, unit);
    forall p | p in lines ensures '\n' !in p {
      var k :| 0 <= k < |lines| && lines[k] == p;
      ItemLineNoNewline(items[k], unit);
    }
    var body := Join("\n", lines);
    SplitJoin(lines, '\n');
    var html := RenderList(items, unit);
    assert html == ListOpen + body + ListClose;
    assert html[|ListOpen|..|html| - |ListClose|] == body;
  }

  // ---------- build_html ----------

  /** The values the document shows, computed once from the rows. */
  datatype Digest = Digest(date: string, totals: Totals, replyRate: string,
                           lowLeads: seq<Entry>, lowReplies: seq<Entry>,
                           zeroPositives: seq<Entry>)

  function ComputeDigest(rows: seq<Row>, cfg: Thresholds): Digest
    requires rows != []
  {
    var totals := ComputeTotals(rows);
    Digest(rows[0].date, totals, ReplyRateString(totals.positives, totals.sent),
           AlertList(LowLeads(cfg.lowLeads), rows),
           AlertList(LowReplies(cfg.lowReplyCount), rows),
           AlertList(ZeroPositives, rows))
  }

  /** The dynamic pieces of the document, in the order they appear. */
  function DigestHoles(d: Digest, cfg: Thresholds): (holes: seq<string>)
    ensures |holes| == 11
  {
    [ d.date,
      NatToString(d.totals.sent), NatToString(d.totals.leads),
      NatToString(d.totals.replies), NatToString(d.totals.positives),
      d.replyRate,
      IntToString(cfg.lowLeads), RenderList(d.lowLeads, LeadsLabel),
      IntToString(cfg.lowReplyCount), RenderList(d.lowReplies, RepliesLabel),
      RenderList(d.zeroPositives, PositivesLabel) ]
  }

  /** The document for a non-empty day: the frame filled with the digest. */
  function RenderDigest(d: Digest, cfg: Thresholds): (html: string)
    ensures |html| > 1 && html[1] == 'd' && html != NoDataHtml
  {
    var holes := DigestHoles(d, cfg);
    FilledFrameStart(holes);
    Fill(HtmlFrame, holes)
  }

  /** Every filled document opens with the frame's `<div`, where the "no
      data" text opens with `<p>`. */
  lemma FilledFrameStart(holes: seq<string>)
    requires |holes| == 11
    ensures var html := Fill(HtmlFrame, holes); |html| > 1 && html[1] == 'd' && html != NoDataHtml
  {
    assert HtmlFrame[0][1] == Frame0[1] == 'd';
    assert NoDataHtml[1] == 'p';
  }

  /** `build_html(rows)`: the (html, subject) pair. The fixed "no data" pair
      for an empty day; otherwise the subject carries the first row's date
      and the document is never the "no data" one. */
  function BuildHtml(rows: seq<Row>, cfg: Thresholds): (result: (string, string))
    ensures rows == [] ==> result == (NoDataHtml, NoDataSubject)
    ensures rows != [] ==> result.1 == SubjectPrefix + rows[0].date && result.0 != NoDataHtml
  {
    if rows == [] then (NoDataHtml, NoDataSubject)
    else (RenderDigest(ComputeDigest(rows, cfg), cfg), SubjectPrefix + rows[0].date)
  }

  /** The document's banner carries the day's date: it begins with the
      opening frame immediately followed by the first row's date. */
  lemma BuildHtmlShowsDate(rows: seq<Row>, cfg: Thresholds)
    requires rows != []
    ensures StartsWith(BuildHtml(rows, cfg).0, Frame0 + rows[0].date)
  {
    var holes := DigestHoles(ComputeDigest(rows, cfg), cfg);
    FillFirstHole(HtmlFrame, holes);
  }

  /** A filled frame begins with its first piece followed by the first hole. */
  lemma FillFirstHole(frame: seq<string>, holes: seq<string>)
    requires |frame| == |holes| + 1 && holes != []
    ensures StartsWith(Fill(frame, holes), frame[0] + holes[0])
  {
    var rest := Fill(frame[1..], holes[1..]);
    assert Fill(frame, holes) == (frame[0] + holes[0]) + rest;
  }

  /** The first five placeholders of a non-empty day's document: the date
      and the four summary totals. */
  lemma DigestSummaryValues(rows: seq<Row>, cfg: Thresholds)
    requires rows != []
    ensures var h := DigestHoles(ComputeDigest(rows, cfg), cfg);
      && h[0] == rows[0].date
      && h[1] == NatToString(RunningSum(rows, Sent, 0))
      && h[2] == NatToString(RunningSum(rows, Leads, 0))
      && h[3] == NatToString(RunningSum(rows, Replies, 0))
      && h[4] == NatToString(RunningSum(rows, Positives, 0))
  {
    var d := ComputeDigest(rows, cfg);
    DigestTotals(rows, cfg);
    SummaryHoles(d, cfg);
  }

  lemma DigestTotals(rows: seq<Row>, cfg: Thresholds)
    requires rows != []
    ensures var d := ComputeDigest(rows, cfg);
      && d.date == rows[0].date
      && d.totals.sent == RunningSum(rows, Sent, 0) && d.totals.leads == RunningSum(rows, Leads, 0)
      && d.totals.replies == RunningSum(rows, Replies, 0) && d.totals.positives == RunningSum(rows, Positives, 0)
  {
    assert ComputeDigest(rows, cfg).totals == ComputeTotals(rows);
  }

  lemma SummaryHoles(d: Digest, cfg: Thresholds)
    ensures var h := DigestHoles(d, cfg);
      && h[0] == d.date
      && h[1] == NatToString(d.totals.sent) && h[2] == NatToString(d.totals.leads)
      && h[3] == NatToString(d.totals.replies) && h[4] == NatToString(d.totals.positives)
  {
    var h := DigestHoles(d, cfg);
    var first := [d.date, NatToString(d.totals.sent), NatToString(d.totals.leads),
                  NatToString(d.totals.replies), NatToString(d.totals.positives)];
    assert h[..5] == first;
    assert h[0] == first[0] && h[1] == first[1] && h[2] == first[2];
    assert h[3] == first[3] && h[4] == first[4];
  }

  /** The sixth placeholder: the reply rate of the summed positives over the
      summed sends. */
  lemma DigestRateValue(rows: seq<Row>, cfg: Thresholds)
    requires rows != []
    ensures DigestHoles(ComputeDigest(rows, cfg), cfg)[5]
      == ReplyRateString(RunningSum(rows, Positives, 0), RunningSum(rows, Sent, 0))
  {
    var t := ComputeTotals(rows);
    assert ComputeDigest(rows, cfg).replyRate == ReplyRateString(t.positives, t.sent);
  }

  /** The last five placeholders: each alert section's threshold and its
      rendered list. */
  lemma DigestAlertValues(rows: seq<Row>, cfg: Thresholds)
    requires rows != []
    ensures var h := DigestHoles(ComputeDigest(rows, cfg), cfg);
      && h[6] == IntToString(cfg.lowLeads)
      && h[7] == RenderList(AlertList(LowLeads(cfg.lowLeads), rows), LeadsLabel)
      && h[8] == IntToString(cfg.lowReplyCount)
      && h[9] == RenderList(AlertList(LowReplies(cfg.lowReplyCount), rows), RepliesLabel)
      && h[10] == RenderList(AlertList(ZeroPositives, rows), PositivesLabel)
  {
    var d := ComputeDigest(rows, cfg);
    assert d.lowLeads == AlertList(LowLeads(cfg.lowLeads), rows);
    assert d.lowReplies == AlertList(LowReplies(cfg.lowReplyCount), rows);
    assert d.zeroPositives == AlertList(ZeroPositives, rows);
  }

  /** Each value of a non-empty day's document sits in its own place: after
      the first `k` template pieces and values comes template piece `k`, then
      value `k`, then the rest of the document, which opens with piece `k + 1`. */
  lemma BuildHtmlPlacesValue(rows: seq<Row>, cfg: Thresholds, k: nat)
    requires rows != [] && k < 11
    ensures var html, h := BuildHtml(rows, cfg).0, DigestHoles(ComputeDigest(rows, cfg), cfg);
      var rest := Fill(HtmlFrame[k + 1..], h[k + 1..]);
      && html == Interleave(HtmlFrame, h, k) + (HtmlFrame[k] + h[k] + rest)
      && StartsWith(rest, HtmlFrame[k + 1])
  {
    var h := DigestHoles(ComputeDigest(rows, cfg), cfg);
    assert BuildHtml(rows, cfg).0 == Fill(HtmlFrame, h);
    FillAt(HtmlFrame, h, k);
  }

  /** `build_plaintext`: the same fallback text whatever the HTML. */
  function BuildPlaintext(html: string): string {
    PlainTextFallback
  }

  lemma PlaintextIgnoresHtml(h1: string, h2: string)
    ensures BuildPlaintext(h1) == BuildPlaintext(h2) != ""
  {
  }

  /** The email depends only on the multiset of rows and the first row's
      date: totals are sums, and every alert list is sorted on its whole entry. */
  lemma BuildHtmlReorder(a: seq<Row>, b: seq<Row>, cfg: Thresholds)
    requires multiset(a) == multiset(b)
    requires a != [] && b != [] && a[0].date == b[0].date
    ensures BuildHtml(a, cfg) == BuildHtml(b, cfg)
  {
    TotalsPermutation(a, b);
    AlertListReorder(LowLeads(cfg.lowLeads), a, b);
    AlertListReorder(LowReplies(cfg.lowReplyCount), a, b);
    AlertListReorder(ZeroPositives, a, b);
    assert ComputeDigest(a, cfg) == ComputeDigest(b, cfg);
  }

  /** A client with few leads, few replies and no positive reply appears in
      all three lists. */
  lemma DigestLowClient(date: string)
    ensures var d := ComputeDigest([Row("C", 500, 100, 3, 0, 0, date)], DefaultThresholds);
      && d.lowLeads == [Entry("C", 100)]
      && d.lowReplies == [Entry("C", 3)]
      && d.zeroPositives == [Entry("C", 0)]
  {
    var rows := [Row("C", 500, 100, 3, 0, 0, date)];
    assert rows[1..] == [];
    assert Candidates(LowLeads(250), rows) == [Entry("C", 100)];
    assert Candidates(LowReplies(5), rows) == [Entry("C", 3)];
    assert Candidates(ZeroPositives, rows) == [Entry("C", 0)];
  }

  /** A healthy client raises no alert, and its summary is its own metrics. */
  lemma DigestHealthyClient(date: string)
    ensures var d := ComputeDigest([Row("A", 1000, 300, 50, 10, 0, date)], DefaultThresholds);
      && d.totals == Totals(1000, 300, 50, 10)
      && d.replyRate == "1.0%"
      && d.lowLeads == [] && d.lowReplies == [] && d.zeroPositives == []
  {
    var rows := [Row("A", 1000, 300, 50, 10, 0, date)];
    assert rows[1..] == [];
    assert Total(rows, Sent) == 1000;
    assert Total(rows, Leads) == 300;
    assert Total(rows, Replies) == 50;
    assert Total(rows, Positives) == 10;
    assert Candidates(LowLeads(250), rows) == [];
    assert Candidates(LowReplies(5), rows) == [];
    assert Candidates(ZeroPositives, rows) == [];
    assert ReplyRateTenths(10, 1000) == 10;
    assert NatToString(1) == "1";
  }

  /** The source does not re-filter rows with nothing sent: under the
      default thresholds, a named row with all metrics 0 is listed in all
      three lists, though it adds nothing to the totals. */
  lemma DigestInactiveClient(date: string)
    ensures var d := ComputeDigest([Row("A", 1000, 300, 50, 10, 0, date),
                                    Row("B", 0, 0, 0, 0, 0, date)], DefaultThresholds);
      && d.totals == Totals(1000, 300, 50, 10)
      && d.lowLeads == [Entry("B", 0)]
      && d.lowReplies == [Entry("B", 0)]
      && d.zeroPositives == [Entry("B", 0)]
  {
    var a, b := Row("A", 1000, 300, 50, 10, 0, date), Row("B", 0, 0, 0, 0, 0, date);
    var rows := [a, b];
    assert rows[1..] == [b] && [b][1..] == [];
    assert Total([b], Sent) == 0;
    assert Total(rows, Sent) == 1000;
    assert Total([b], Leads) == 0;
    assert Total(rows, Leads) == 300;
    assert Total([b], Replies) == 0;
    assert Total(rows, Replies) == 50;
    assert Total([b], Positives) == 0;
    assert Total(rows, Positives) == 10;
    assert Candidates(LowLeads(250), [b]) == [Entry("B", 0)];
    assert Candidates(LowLeads(250), rows) == [Entry("B", 0)];
    assert Candidates(LowReplies(5), [b]) == [Entry("B", 0)];
    assert Candidates(LowReplies(5), rows) == [Entry("B", 0)];
    assert Candidates(ZeroPositives, [b]) == [Entry("B", 0)];
    assert Candidates(ZeroPositives, rows) == [Entry("B", 0)];
  }
}
