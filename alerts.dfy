/** The three alert lists of the email digest (email_send.py:74-77): each
    keeps the rows that pass its own filter, as `(client_name, value)` pairs,
    and sorts them with Python's `sorted`. */
module Alerts {
  import opened Text
  import opened Metrics
  import Sequences

  /** One alert line: a client name and the metric that triggered it. */
  datatype Entry = Entry(name: string, value: nat)

  /** Which list, with the threshold it compares against. */
  datatype AlertKind =
    | LowLeads(threshold: int)      // leads < threshold; empty names are kept
    | LowReplies(threshold: int)    // replies <= threshold, non-empty name
    | ZeroPositives                 // positives == 0, non-empty name

  predicate Qualifies(k: AlertKind, r: Row) {
    match k
    case LowLeads(t) => r.leads < t
    case LowReplies(t) => r.replies <= t && r.clientName != ""
    case ZeroPositives => r.positives == 0 && r.clientName != ""
  }

  function EntryOf(k: AlertKind, r: Row): Entry {
    match k
    case LowLeads(_) => Entry(r.clientName, r.leads)
    case LowReplies(_) => Entry(r.clientName, r.replies)
    case ZeroPositives => Entry(r.clientName, r.positives)
  }

  /** The list comprehension before sorting: qualifying rows in input order. */
  function Candidates(k: AlertKind, rows: seq<Row>): (es: seq<Entry>)
    ensures |es| <= |rows|
    ensures forall e :: e in es ==> exists r :: r in rows && Qualifies(k, r) && e == EntryOf(k, r)
  {
    if rows == [] then []
    else
      var rest := Candidates(k, rows[1..]);
      if Qualifies(k, rows[0]) then [EntryOf(k, rows[0])] + rest else rest
  }

  /** No qualifying row is left out of the candidates. */
  lemma {:induction false} CandidatesComplete(k: AlertKind, rows: seq<Row>, i: nat)
    requires i < |rows| && Qualifies(k, rows[i])
    ensures EntryOf(k, rows[i]) in Candidates(k, rows)
  {
    if i > 0 {
      CandidatesComplete(k, rows[1..], i - 1);
    }
  }

  lemma {:induction false} CandidatesAppend(k: AlertKind, a: seq<Row>, b: seq<Row>)
    ensures Candidates(k, a + b) == Candidates(k, a) + Candidates(k, b)
  {
    if a == [] {
      assert a + b == b;
    } else {
      assert (a + b)[1..] == a[1..] + b;
      CandidatesAppend(k, a[1..], b);
    }
  }

  /** Reordering the rows only reorders the candidates. */
  lemma {:induction false} CandidatesPermutation(k: AlertKind, a: seq<Row>, b: seq<Row>)
    requires multiset(a) == multiset(b)
    ensures multiset(Candidates(k, a)) == multiset(Candidates(k, b))
    decreases |a|
  {
    if a == [] {
      Sequences.EmptyPermutation(a, b);
    } else {
      var i := Sequences.PermutationSplit(a, b);
      CandidatesPermutation(k, a[1..], b[..i] + b[i + 1..]);
      CandidatesAppend(k, b[..i], b[i + 1..]);
      var tail := [a[0]] + b[i + 1..];
      CandidatesAppend(k, b[..i], tail);
      assert tail[1..] == b[i + 1..];
      assert b == b[..i] + tail;
    }
  }

  // ---------- Python's sorted() ----------

  /** The sort keys of line 75-76, `(value, name)`, and of line 77, `name`. */
  datatype SortKey = ByValueThenName | ByName

  function KeyOf(k: AlertKind): SortKey {
    if k.ZeroPositives? then ByName else ByValueThenName
  }

  /** key(x) <= key(y), comparing tuples element by element. */
  predicate Le(key: SortKey, x: Entry, y: Entry) {
    match key
    case ByValueThenName => x.value < y.value || (x.value == y.value && StrLe(x.name, y.name))
    case ByName => StrLe(x.name, y.name)
  }

  lemma LeTotal(key: SortKey, x: Entry, y: Entry)
    ensures Le(key, x, y) || Le(key, y, x)
  {
    StrLeTotal(x.name, y.name);
  }

  lemma LeTransitive(key: SortKey, x: Entry, y: Entry, z: Entry)
    requires Le(key, x, y) && Le(key, y, z)
    ensures Le(key, x, z)
  {
    if StrLe(x.name, y.name) && StrLe(y.name, z.name) {
      StrLeTransitive(x.name, y.name, z.name);
    }
  }

  predicate Sorted(key: SortKey, s: seq<Entry>) {
    forall i, j :: 0 <= i < j < |s| ==> Le(key, s[i], s[j])
  }

  /** Inserts `x` before the first element it does not exceed. */
  function Insert(key: SortKey, x: Entry, s: seq<Entry>): seq<Entry> {
    if s == [] then [x]
    else if Le(key, x, s[0]) then [x] + s
    else [s[0]] + Insert(key, x, s[1..])
  }

  /** A stable sort by `key`: an insertion sort. */
  function Sort(key: SortKey, s: seq<Entry>): seq<Entry> {
    if s == [] then [] else Insert(key, s[0], Sort(key, s[1..]))
  }

  /** Putting an element that does not exceed any of a sorted list in front keeps it sorted. */
  lemma SortedCons(key: SortKey, x: Entry, s: seq<Entry>)
    requires Sorted(key, s)
    requires forall j :: 0 <= j < |s| ==> Le(key, x, s[j])
    ensures Sorted(key, [x] + s)
  {
    var r := [x] + s;
    forall i, j | 0 <= i < j < |r| ensures Le(key, r[i], r[j]) {
      if i > 0 {
        assert r[i] == s[i - 1] && r[j] == s[j - 1];
      } else {
        assert r[j] == s[j - 1];
      }
    }
  }

  lemma {:induction false} InsertSorted(key: SortKey, x: Entry, s: seq<Entry>)
    requires Sorted(key, s)
    ensures Sorted(key, Insert(key, x, s))
    ensures multiset(Insert(key, x, s)) == multiset(s) + multiset{x}
  {
    if s == [] {
    } else if Le(key, x, s[0]) {
      InsertFront(key, x, s);
    } else {
      InsertSorted(key, x, s[1..]);
      InsertBehind(key, x, s);
    }
  }

  /** Inserting in front of a sorted list whose head is not smaller. */
  lemma InsertFront(key: SortKey, x: Entry, s: seq<Entry>)
    requires s != [] && Sorted(key, s) && Le(key, x, s[0])
    ensures Sorted(key, [x] + s)
  {
    forall j | 0 <= j < |s| ensures Le(key, x, s[j]) {
      if j > 0 { LeTransitive(key, x, s[0], s[j]); }
    }
    SortedCons(key, x, s);
  }

  /** Inserting behind the head, given that inserting into the tail worked. */
  lemma InsertBehind(key: SortKey, x: Entry, s: seq<Entry>)
    requires s != [] && Sorted(key, s) && !Le(key, x, s[0])
    requires Sorted(key, Insert(key, x, s[1..]))
    requires multiset(Insert(key, x, s[1..])) == multiset(s[1..]) + multiset{x}
    ensures Sorted(key, Insert(key, x, s))
    ensures multiset(Insert(key, x, s)) == multiset(s) + multiset{x}
  {
    LeTotal(key, x, s[0]);
    var tail := s[1..];
    var rest := Insert(key, x, tail);
    forall m | 0 <= m < |tail| ensures Le(key, s[0], tail[m]) {
      assert tail[m] == s[m + 1];
    }
    LowerBoundKept(key, s[0], rest, tail, x);
    SortedCons(key, s[0], rest);
    assert s == [s[0]] + tail;
  }

  /** A lower bound of `u` and of `x` bounds every element of a
      permutation of `u` plus `x`. */
  lemma LowerBoundKept(key: SortKey, lo: Entry, t: seq<Entry>, u: seq<Entry>, x: Entry)
    requires multiset(t) == multiset(u) + multiset{x}
    requires Le(key, lo, x)
    requires forall m :: 0 <= m < |u| ==> Le(key, lo, u[m])
    ensures forall j :: 0 <= j < |t| ==> Le(key, lo, t[j])
  {
    forall j | 0 <= j < |t| ensures Le(key, lo, t[j]) {
      assert t[j] in multiset(t);
      if t[j] != x {
        assert t[j] in multiset(u);
        var m :| 0 <= m < |u| && u[m] == t[j];
      }
    }
  }

  /** Sort returns a sorted permutation of its input. */
  lemma {:induction false} SortSorted(key: SortKey, s: seq<Entry>)
    ensures Sorted(key, Sort(key, s))
    ensures multiset(Sort(key, s)) == multiset(s)
  {
    if s != [] {
      SortSorted(key, s[1..]);
      InsertSorted(key, s[0], Sort(key, s[1..]));
      assert s == [s[0]] + s[1..];
    }
  }

  /** Two entries that compare equal in both directions are the same entry. */
  predicate AntisymmetricOn(key: SortKey, s: seq<Entry>) {
    forall x, y :: x in s && y in s && Le(key, x, y) && Le(key, y, x) ==> x == y
  }

  /** When equal keys mean equal entries, a multiset has exactly one sorted
      arrangement. */
  lemma {:induction false} SortedUnique(key: SortKey, a: seq<Entry>, b: seq<Entry>)
    requires Sorted(key, a) && Sorted(key, b) && multiset(a) == multiset(b)
    requires AntisymmetricOn(key, a)
    ensures a == b
    decreases |a|
  {
    if a == [] {
      Sequences.EmptyPermutation(a, b);
    } else {
      SortedHeadsEqual(key, a, b);
      SortedTail(key, a, b);
      SortedUnique(key, a[1..], b[1..]);
      assert a == [a[0]] + a[1..] && b == [b[0]] + b[1..];
    }
  }

  /** Both sorted arrangements start with the least element. */
  lemma SortedHeadsEqual(key: SortKey, a: seq<Entry>, b: seq<Entry>)
    requires a != [] && Sorted(key, a) && Sorted(key, b) && multiset(a) == multiset(b)
    requires AntisymmetricOn(key, a)
    ensures b != [] && a[0] == b[0]
  {
    assert a[0] in multiset(b) && b[0] in multiset(a);
    var j :| 0 <= j < |b| && b[j] == a[0];
    var i :| 0 <= i < |a| && a[i] == b[0];
    if i > 0 && j > 0 {
      assert Le(key, a[0], a[i]) && Le(key, b[0], b[j]);
    }
  }

  /** Dropping the common head leaves two sorted arrangements of one multiset. */
  lemma SortedTail(key: SortKey, a: seq<Entry>, b: seq<Entry>)
    requires a != [] && b != [] && a[0] == b[0]
    requires Sorted(key, a) && Sorted(key, b) && multiset(a) == multiset(b)
    requires AntisymmetricOn(key, a)
    ensures Sorted(key, a[1..]) && Sorted(key, b[1..])
    ensures multiset(a[1..]) == multiset(b[1..])
    ensures AntisymmetricOn(key, a[1..])
  {
    Sequences.PermutationTail(a, b);
    forall x | x in a[1..] ensures x in a { }
  }

  // ---------- the alert lists ----------

  /** `sorted([... for r in rows if <filter>], key=...)`. */
  function AlertList(k: AlertKind, rows: seq<Row>): (es: seq<Entry>)
    ensures Sorted(KeyOf(k), es)
    ensures multiset(es) == multiset(Candidates(k, rows))
  {
    var es := Sort(KeyOf(k), Candidates(k, rows));
    SortSorted(KeyOf(k), Candidates(k, rows));
    es
  }

  /** An entry is listed exactly when some row passes the filter and gives that entry. */
  lemma AlertListMembership(k: AlertKind, rows: seq<Row>, e: Entry)
    ensures e in AlertList(k, rows) <==> exists r :: r in rows && Qualifies(k, r) && e == EntryOf(k, r)
  {
    var es := AlertList(k, rows);
    assert e in es <==> e in multiset(es);
    assert e in Candidates(k, rows) <==> e in multiset(Candidates(k, rows));
    if r :| r in rows && Qualifies(k, r) && e == EntryOf(k, r) {
      var i :| 0 <= i < |rows| && rows[i] == r;
      CandidatesComplete(k, rows, i);
    }
  }

  /** The low-replies and zero-positive lists never show an unnamed row, and
      every zero-positive entry shows 0. */
  lemma AlertListNamed(k: AlertKind, rows: seq<Row>, e: Entry)
    requires !k.LowLeads? && e in AlertList(k, rows)
    ensures e.name != ""
    ensures k.ZeroPositives? ==> e.value == 0
  {
    AlertListMembership(k, rows, e);
  }

  lemma AlertListAntisymmetric(k: AlertKind, rows: seq<Row>)
    ensures AntisymmetricOn(KeyOf(k), AlertList(k, rows))
  {
    var es := AlertList(k, rows);
    forall x, y | x in es && y in es && Le(KeyOf(k), x, y) && Le(KeyOf(k), y, x)
      ensures x == y
    {
      StrLeAntisymmetric(x.name, y.name);
      if k.ZeroPositives? {
        AlertListNamed(k, rows, x);
        AlertListNamed(k, rows, y);
      }
    }
  }

  /** Each list depends only on the multiset of rows: reordering the input
      rows leaves it unchanged, because the sort key decides every tie. */
  lemma AlertListReorder(k: AlertKind, a: seq<Row>, b: seq<Row>)
    requires multiset(a) == multiset(b)
    ensures AlertList(k, a) == AlertList(k, b)
  {
    CandidatesPermutation(k, a, b);
    AlertListAntisymmetric(k, a);
    SortedUnique(KeyOf(k), AlertList(k, a), AlertList(k, b));
  }
}
