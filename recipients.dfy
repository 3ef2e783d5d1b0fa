/** The recipient lists of the email (email_send.py:15-16): EMAIL_TO and
    EMAIL_CC are split at commas, each piece is stripped of surrounding
    whitespace, and empty pieces are dropped. */
module Recipients {
  import opened Text

  /** A recipient entry as the parser keeps it: non-empty, no surrounding
      whitespace, no comma. */
  predicate WellFormedEntry(e: string) {
    e != [] && Stripped(e) && ',' !in e
  }

  lemma StripKeepsOut(s: string, c: char)
    requires c !in s
    ensures c !in Strip(s)
  {
    var r := Strip(s);
    var i := LeadingSpace(s);
    forall k | 0 <= k < |r| ensures r[k] != c {
      assert r[k] == s[i + k];
    }
  }

  /** One piece's contribution: its stripped text, unless that is empty. */
  function CleanEntry(part: string): (entries: seq<string>)
    requires ',' !in part
    ensures |entries| <= 1
    ensures forall e :: e in entries ==> WellFormedEntry(e)
  {
    var e := Strip(part);
    StripKeepsOut(part, ',');
    if e != "" then [e] else []
  }

  /** `[e.strip() for e in parts if e.strip()]`. */
  function CleanEntries(parts: seq<string>): (entries: seq<string>)
    requires forall p :: p in parts ==> ',' !in p
    ensures |entries| <= |parts|
    ensures forall e :: e in entries ==> WellFormedEntry(e)
  {
    if parts == [] then [] else CleanEntry(parts[0]) + CleanEntries(parts[1..])
  }

  lemma {:induction false} CleanEntriesAppend(a: seq<string>, b: seq<string>)
    requires forall p :: p in a + b ==> ',' !in p
    ensures CleanEntries(a + b) == CleanEntries(a) + CleanEntries(b)
  {
    if a == [] {
      assert a + b == b;
    } else {
      assert (a + b)[1..] == a[1..] + b;
      CleanEntriesAppend(a[1..], b);
    }
  }

  /** The parsed list of one comma-separated setting. */
  function ParseRecipients(raw: string): (entries: seq<string>)
    ensures |entries| <= Count(raw, ',') + 1
    ensures forall e :: e in entries ==> WellFormedEntry(e)
  {
    CleanEntries(Split(raw, ','))
  }

  /** Entries keep their input order: the entries before a comma come first,
      then those after it, and no entry spans the comma. */
  lemma ParseRecipientsConcat(a: string, b: string)
    ensures ParseRecipients(a + "," + b) == ParseRecipients(a) + ParseRecipients(b)
  {
    SplitAround(a, ',', b);
    CleanEntriesAppend(Split(a, ','), Split(b, ','));
  }

  /** Text without a comma gives its stripped self, or nothing if it is blank. */
  lemma ParseRecipientsSingle(s: string)
    requires ',' !in s
    ensures ParseRecipients(s) == if Strip(s) == "" then [] else [Strip(s)]
  {
    SplitNoSeparator(s, ',');
    assert [s][1..] == [];
  }

  /** An unset variable (the default "") gives the empty list. */
  lemma ParseRecipientsEmpty()
    ensures ParseRecipients("") == []
  {
    ParseRecipientsSingle("");
  }
}
