/** The chat presenter's Block Kit payload (slack_post.py:48-55): one fixed
    header block, then one section block per client row for at most the
    first ten rows, in input order. */
module SlackReport {
  import opened Text
  import opened Metrics

  /** `{"type": kind, "text": text}` inside a block. */
  datatype TextObject = TextObject(kind: string, text: string)

  /** `{"type": kind, "text": {...}}`. */
  datatype Block = Block(kind: string, text: TextObject)

  const HeaderText := "\U{1F4CA} Daily Campaign Report (IST Yesterday)"
  const HeaderBlock := Block("header", TextObject("plain_text", HeaderText))

  /** Only the first ten rows get a section. */
  const MaxSections := 10

  function Min(a: nat, b: nat): nat {
    if a <= b then a else b
  }

  /** `caption` followed by the decimal text of `n`, then `rest`. */
  function Labelled(caption: string, n: nat, rest: string): string {
    caption + NatToString(n) + rest
  }

  /** The metrics part of a section: five labelled integers. */
  function MetricsText(r: Row): string {
    Labelled("Sent: ", r.sent,
      Labelled(", Leads: ", r.leads,
        Labelled(", Replies: ", r.replies,
          Labelled(", Positives: ", r.positives,
            Labelled(", Bounces: ", r.bounces, "")))))
  }

  /** What follows the client name: the closing bold marker and an em dash. */
  const NameEnd := "* \U{2014} "

  /** The mrkdwn text of a client's section: the bold name, an em dash and the metrics. */
  function SectionText(r: Row): string {
    "*" + (r.clientName + (NameEnd + MetricsText(r)))
  }

  function SectionBlock(r: Row): Block {
    Block("section", TextObject("mrkdwn", SectionText(r)))
  }

  /** One section per row, in order. */
  function Sections(rows: seq<Row>): (bs: seq<Block>)
    ensures |bs| == |rows|
  {
    if rows == [] then []
    else Sections(rows[..|rows| - 1]) + [SectionBlock(rows[|rows| - 1])]
  }

  lemma {:induction false} SectionsAt(rows: seq<Row>, k: nat)
    requires k < |rows|
    ensures Sections(rows)[k] == SectionBlock(rows[k])
  {
    if k < |rows| - 1 {
      var front := rows[..|rows| - 1];
      SectionsAt(front, k);
    }
  }

  /** The blocks the presenter posts for `rows`. */
  function ReportBlocks(rows: seq<Row>): seq<Block> {
    [HeaderBlock] + Sections(rows[..Min(|rows|, MaxSections)])
  }

  /** The header comes first, then exactly min(|rows|, 10) sections, the
      k-th describing rows[k]. */
  lemma ReportBlocksShape(rows: seq<Row>)
    ensures |ReportBlocks(rows)| == 1 + Min(|rows|, MaxSections)
    ensures ReportBlocks(rows)[0] == HeaderBlock
    ensures forall j :: 1 <= j < |ReportBlocks(rows)| ==> ReportBlocks(rows)[j] == SectionBlock(rows[j - 1])
  {
    var first := rows[..Min(|rows|, MaxSections)];
    forall j | 1 <= j < |ReportBlocks(rows)|
      ensures ReportBlocks(rows)[j] == SectionBlock(rows[j - 1])
    {
      SectionsAt(first, j - 1);
    }
  }

  /** Rows after the tenth never reach the payload. */
  lemma ReportBlocksIgnoresTail(rows: seq<Row>, more: seq<Row>)
    requires |rows| >= MaxSections
    ensures ReportBlocks(rows + more) == ReportBlocks(rows)
  {
    assert (rows + more)[..MaxSections] == rows[..MaxSections];
  }

  /** No rows: the header alone is posted. */
  lemma ReportBlocksEmpty()
    ensures ReportBlocks([]) == [HeaderBlock]
  {
  }

  /** `build_blocks`: starts from the header and appends one section per row
      of `rows[:10]`, in order. */
  method BuildBlocks(rows: seq<Row>) returns (blocks: seq<Block>)
    ensures blocks == ReportBlocks(rows)
    ensures |blocks| == 1 + Min(|rows|, MaxSections) && blocks[0] == HeaderBlock
    ensures forall j :: 1 <= j < |blocks| ==> blocks[j] == SectionBlock(rows[j - 1])
  {
    blocks := [HeaderBlock];
    var n := Min(|rows|, MaxSections);
    var i := 0;
    while i < n
      invariant 0 <= i <= n && |blocks| == i + 1 && blocks[0] == HeaderBlock
      invariant forall j :: 1 <= j <= i ==> blocks[j] == SectionBlock(rows[j - 1])
    {
      blocks := blocks + [SectionBlock(rows[i])];
      i := i + 1;
    }
    ReportBlocksShape(rows);
    assert blocks == ReportBlocks(rows);
  }

  /** Splitting at the first `c`: if neither prefix contains `c` and each
      suffix is empty or starts with `c`, the prefixes agree. */
  lemma {:induction false} SplitAtMarker(a1: string, t1: string, a2: string, t2: string, c: char)
    requires a1 + t1 == a2 + t2
    requires c !in a1 && c !in a2
    requires t1 == [] || t1[0] == c
    requires t2 == [] || t2[0] == c
    ensures a1 == a2 && t1 == t2
  {
    if a1 != [] || a2 != [] {
      assert (a1 + t1)[0] == (a2 + t2)[0];
    }
    if a1 != [] && a2 != [] {
      assert a1[0] == (a1 + t1)[0] == (a2 + t2)[0] == a2[0];
      assert a1[1..] + t1 == (a1 + t1)[1..] == (a2 + t2)[1..] == a2[1..] + t2;
      SplitAtMarker(a1[1..], t1, a2[1..], t2, c);
    } else if a1 == [] && a2 == [] {
      assert t1 == a1 + t1;
      assert t2 == a2 + t2;
    }
  }

  lemma PeelPrefix(p: string, x: string, y: string)
    requires p + x == p + y
    ensures x == y
  {
    assert x == (p + x)[|p|..];
    assert y == (p + y)[|p|..];
  }

  lemma DigitsHaveNoComma(n: nat)
    ensures ',' !in NatToString(n)
  {
    var s := NatToString(n);
    NatToStringCanonical(n);
    forall k | 0 <= k < |s| ensures s[k] != ',' {
      assert IsDigit(s[k]);
    }
  }

  /** A labelled field reads back its number and the rest after it. */
  lemma LabelledInjective(caption: string, m1: nat, rest1: string, m2: nat, rest2: string)
    requires Labelled(caption, m1, rest1) == Labelled(caption, m2, rest2)
    requires rest1 == [] || rest1[0] == ','
    requires rest2 == [] || rest2[0] == ','
    ensures m1 == m2 && rest1 == rest2
  {
    assert Labelled(caption, m1, rest1) == caption + (NatToString(m1) + rest1);
    assert Labelled(caption, m2, rest2) == caption + (NatToString(m2) + rest2);
    PeelPrefix(caption, NatToString(m1) + rest1, NatToString(m2) + rest2);
    DigitsHaveNoComma(m1);
    DigitsHaveNoComma(m2);
    SplitAtMarker(NatToString(m1), rest1, NatToString(m2), rest2, ',');
    NatToStringInjective(m1, m2);
  }

  /** The metrics text determines all five numbers. */
  lemma MetricsTextInjective(r1: Row, r2: Row)
    requires MetricsText(r1) == MetricsText(r2)
    ensures r1.sent == r2.sent && r1.leads == r2.leads && r1.replies == r2.replies
    ensures r1.positives == r2.positives && r1.bounces == r2.bounces
  {
    var b1 := Labelled(", Bounces: ", r1.bounces, "");
    var b2 := Labelled(", Bounces: ", r2.bounces, "");
    var p1 := Labelled(", Positives: ", r1.positives, b1);
    var p2 := Labelled(", Positives: ", r2.positives, b2);
    var q1 := Labelled(", Replies: ", r1.replies, p1);
    var q2 := Labelled(", Replies: ", r2.replies, p2);
    var l1 := Labelled(", Leads: ", r1.leads, q1);
    var l2 := Labelled(", Leads: ", r2.leads, q2);
    LabelledInjective("Sent: ", r1.sent, l1, r2.sent, l2);
    LabelledInjective(", Leads: ", r1.leads, q1, r2.leads, q2);
    LabelledInjective(", Replies: ", r1.replies, p1, r2.replies, p2);
    LabelledInjective(", Positives: ", r1.positives, b1, r2.positives, b2);
    LabelledInjective(", Bounces: ", r1.bounces, "", r2.bounces, "");
  }

  /** A section's text determines the client and all five numbers, provided
      the names hold no `*` (Markdown bold delimiters). */
  lemma SectionTextDeterminesMetrics(r1: Row, r2: Row)
    requires SectionText(r1) == SectionText(r2)
    requires '*' !in r1.clientName && '*' !in r2.clientName
    ensures r1.clientName == r2.clientName
    ensures r1.sent == r2.sent && r1.leads == r2.leads && r1.replies == r2.replies
    ensures r1.positives == r2.positives && r1.bounces == r2.bounces
  {
    var tail1 := NameEnd + MetricsText(r1);
    var tail2 := NameEnd + MetricsText(r2);
    PeelPrefix("*", r1.clientName + tail1, r2.clientName + tail2);
    assert tail1[0] == NameEnd[0] == '*' && tail2[0] == NameEnd[0];
    SplitAtMarker(r1.clientName, tail1, r2.clientName, tail2, '*');
    PeelPrefix(NameEnd, MetricsText(r1), MetricsText(r2));
    MetricsTextInjective(r1, r2);
  }
}
