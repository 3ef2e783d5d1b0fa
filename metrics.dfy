/** The per-client metric rows the database returns for the business date,
    and the summary totals both presenters compute from them
    (email_send.py:66-69). */
module Metrics {
  import Sequences

  /** One client's aggregated metrics. `date` is the IST business date the
      email query selects (`ist_yday`), as rendered text; `bounces` is only
      selected by the chat query. Names may be empty. */
  datatype Row = Row(clientName: string, sent: nat, leads: nat, replies: nat,
                     positives: nat, bounces: nat, date: string)

  /** The numeric columns of a row. */
  datatype Field = Sent | Leads | Replies | Positives | Bounces

  function Get(r: Row, f: Field): nat {
    match f
    case Sent => r.sent
    case Leads => r.leads
    case Replies => r.replies
    case Positives => r.positives
    case Bounces => r.bounces
  }

  /** `sum(r[f] for r in rows)`. */
  function Total(rows: seq<Row>, f: Field): nat {
    if rows == [] then 0 else Get(rows[0], f) + Total(rows[1..], f)
  }

  datatype Totals = Totals(sent: nat, leads: nat, replies: nat, positives: nat)

  /** How Python's `sum` adds a column: a running total, starting from
      `acc`, that takes the rows from left to right. */
  function RunningSum(rows: seq<Row>, f: Field, acc: nat): nat
    decreases |rows|
  {
    if rows == [] then acc else RunningSum(rows[1..], f, acc + Get(rows[0], f))
  }

  /** The running sum from `acc` is `acc` plus the column total. */
  lemma {:induction false} RunningSumTotal(rows: seq<Row>, f: Field, acc: nat)
    ensures RunningSum(rows, f, acc) == acc + Total(rows, f)
    decreases |rows|
  {
    if rows != [] {
      RunningSumTotal(rows[1..], f, acc + Get(rows[0], f));
    }
  }

  /** The four totals of the email summary: each is the running sum of its
      column, starting from 0. */
  function ComputeTotals(rows: seq<Row>): (t: Totals)
    ensures t.sent == RunningSum(rows, Sent, 0) && t.leads == RunningSum(rows, Leads, 0)
    ensures t.replies == RunningSum(rows, Replies, 0) && t.positives == RunningSum(rows, Positives, 0)
  {
    RunningSumTotal(rows, Sent, 0);
    RunningSumTotal(rows, Leads, 0);
    RunningSumTotal(rows, Replies, 0);
    RunningSumTotal(rows, Positives, 0);
    Totals(Total(rows, Sent), Total(rows, Leads), Total(rows, Replies), Total(rows, Positives))
  }

  /** Summation is additive over concatenation. */
  lemma {:induction false} TotalAppend(a: seq<Row>, b: seq<Row>, f: Field)
    ensures Total(a + b, f) == Total(a, f) + Total(b, f)
  {
    if a == [] {
      assert a + b == b;
    } else {
      assert (a + b)[1..] == a[1..] + b;
      TotalAppend(a[1..], b, f);
    }
  }

  /** No row's value exceeds its column total. */
  lemma {:induction false} TotalBoundsEachRow(rows: seq<Row>, f: Field, k: nat)
    requires k < |rows|
    ensures Get(rows[k], f) <= Total(rows, f)
  {
    if k > 0 {
      TotalBoundsEachRow(rows[1..], f, k - 1);
    }
  }

  /** A total depends only on the multiset of rows, not on their order. */
  lemma {:induction false} TotalPermutation(a: seq<Row>, b: seq<Row>, f: Field)
    requires multiset(a) == multiset(b)
    ensures Total(a, f) == Total(b, f)
    decreases |a|
  {
    if a == [] {
      Sequences.EmptyPermutation(a, b);
    } else {
      var i := Sequences.PermutationSplit(a, b);
      TotalPermutation(a[1..], b[..i] + b[i + 1..], f);
      TotalAppend(b[..i], b[i + 1..], f);
      var tail := [a[0]] + b[i + 1..];
      TotalAppend(b[..i], tail, f);
      assert tail[1..] == b[i + 1..];
      assert Total(tail, f) == Get(a[0], f) + Total(b[i + 1..], f);
      assert b == b[..i] + tail;
    }
  }

  /** The summary totals do not change when the rows are reordered. */
  lemma TotalsPermutation(a: seq<Row>, b: seq<Row>)
    requires multiset(a) == multiset(b)
    ensures ComputeTotals(a) == ComputeTotals(b)
  {
    TotalPermutation(a, b, Sent);
    TotalPermutation(a, b, Leads);
    TotalPermutation(a, b, Replies);
    TotalPermutation(a, b, Positives);
  }
}
