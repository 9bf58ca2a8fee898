/** The pieces of the compose window that are list and flag logic: the
    References header trimmed to the line limit, Message-Id angle brackets
    stripped from a mailto URL, the local draft written and read back as a
    sequence of fields, the edit flags that decide whether closing asks to
    save, and the checks made before a message is handed to submission. */
module ComposeWindow {
  import opened Outcomes
  import opened Addresses
  import opened EnvelopeForm
  import Outgoing

  // ---------------------------------------------------------------------
  // References trimming (section 3.4.4 of RFC 5537)

  /** The octets of "References: ", where the header starts. */
  const ReferencesPrefix: int := 12
  /** Each item costs a leading space and a CRLF besides its own octets. */
  const LineOverhead: int := 3
  /** The line length limit of section 2.1.1 of RFC 5322. */
  const LineLimit: int := 998

  /** The size the header is reckoned at: the prefix and every item with
      its overhead. */
  function ReferencesSize(refs: seq<string>): (size: int)
  {
    if refs == [] then ReferencesPrefix else ReferencesSize(refs[..|refs| - 1]) + |refs[|refs| - 1]| + LineOverhead
  }

  lemma {:induction false} ReferencesSizeSplit(a: seq<string>, b: seq<string>)
    ensures ReferencesSize(a + b) == ReferencesSize(a) + ReferencesSize(b) - ReferencesPrefix
    decreases |b|
  {
    if b == [] {
      assert a + b == a;
    } else {
      assert (a + b)[..|a + b| - 1] == a + b[..|b| - 1];
      ReferencesSizeSplit(a, b[..|b| - 1]);
    }
  }

  /** The references kept after dropping `n` items from position 1: the
      first one and the last `|refs| - 1 - n`. */
  function Kept(refs: seq<string>, n: int): seq<string>
    requires 0 <= n < |refs|
  {
    refs[..1] + refs[n + 1..]
  }

  /** The size of all the references, summed one item at a time. */
  method ReferencesSizeOf(refs: seq<string>) returns (size: int)
    ensures size == ReferencesSize(refs)
  {
    size := ReferencesPrefix;
    var i := 0;
    while i < |refs|
      invariant 0 <= i <= |refs|
      invariant size == ReferencesSize(refs[..i])
    {
      assert refs[..i + 1][..i] == refs[..i];
      size := size + |refs[i]| + LineOverhead;
      i := i + 1;
    }
    assert refs[..i] == refs;
  }

  /** Taking the second item off lowers the size by that item and its
      overhead, and keeps one more item out of the original list. */
  lemma TakeSecond(refs: seq<string>, n: int)
    requires 0 <= n && n + 2 < |refs|
    ensures var k := Kept(refs, n);
      Kept(refs, n + 1) == [k[0]] + k[2..] &&
      ReferencesSize(Kept(refs, n + 1)) == ReferencesSize(k) - (|k[1]| + LineOverhead)
  {
    var k := Kept(refs, n);
    var taken := k[1];
    assert k == [k[0]] + k[1..];
    assert k[1..] == [taken] + k[2..];
    ReferencesSizeSplit([k[0]], k[1..]);
    ReferencesSizeSplit([k[0]], k[2..]);
    ReferencesSizeSplit([taken], k[2..]);
    assert ReferencesSize([taken]) == ReferencesPrefix + |taken| + LineOverhead by {
      assert [taken][..0] == [];
    }
    assert Kept(refs, n + 1) == [k[0]] + k[2..];
  }

  /** Drops the second item while the header is too long and more than
      three items are left. */
  method TrimReferences(refs: seq<string>) returns (trimmed: seq<string>)
    ensures refs == [] ==> trimmed == []
    ensures refs != [] ==> 0 < |trimmed| <= |refs| && trimmed == Kept(refs, |refs| - |trimmed|)
    ensures refs != [] ==> ReferencesSize(trimmed) < LineLimit || |trimmed| <= 3
    ensures refs != [] && |trimmed| < |refs| ==>
      var before := Kept(refs, |refs| - |trimmed| - 1);
      ReferencesSize(before) >= LineLimit && |before| > 3
  {
    trimmed := refs;
    var size := ReferencesSizeOf(refs);
    if refs == [] {
      return;
    }
    ghost var n := 0;
    assert trimmed == Kept(refs, 0);
    while size >= LineLimit && |trimmed| > 3
      invariant 0 <= n < |refs| && trimmed == Kept(refs, n)
      invariant size == ReferencesSize(trimmed)
      invariant n > 0 ==> ReferencesSize(Kept(refs, n - 1)) >= LineLimit && |Kept(refs, n - 1)| > 3
      decreases |trimmed|
    {
      TakeSecond(refs, n);
      size := size - (|trimmed[1]| + LineOverhead);
      trimmed := [trimmed[0]] + trimmed[2..];
      n := n + 1;
    }
  }

  /** What trimming keeps: the first reference always, at least three
      references when there were that many, and the others in their
      original order as one run ending at the last reference. */
  lemma KeptMeans(refs: seq<string>, n: int)
    requires 0 <= n < |refs|
    requires n > 0 ==> |Kept(refs, n - 1)| > 3
    ensures var k := Kept(refs, n);
      k[0] == refs[0] && |k| == |refs| - n &&
      (|refs| >= 3 ==> |k| >= 3) &&
      forall j :: 1 <= j < |k| ==> k[j] == refs[n + j]
  {
  }

  // ---------------------------------------------------------------------
  // Angle brackets around Message-Ids from a mailto URL

  /** A Message-Id without the angle brackets around it; one that does not
      both start with '<' and end with '>' is kept as it is. */
  function Unbracketed(id: string): (r: string)
  {
    if |id| >= 2 && id[0] == '<' && id[|id| - 1] == '>' then id[1..|id| - 1] else id
  }

  /** Brackets come off exactly when both are there, and putting them back
      gives the original id. */
  lemma UnbracketedMeans(id: string)
    ensures (Unbracketed(id) != id) <==> (|id| >= 2 && id[0] == '<' && id[|id| - 1] == '>')
    ensures Unbracketed(id) != id ==> "<" + Unbracketed(id) + ">" == id
  {
    if |id| >= 2 && id[0] == '<' && id[|id| - 1] == '>' {
      assert |Unbracketed(id)| == |id| - 2;
      assert "<" + Unbracketed(id) + ">" == id;
    }
  }

  /** Rewrites every id of the list in place without its brackets. */
  method StripAngleBrackets(ids: seq<string>) returns (out: seq<string>)
    ensures |out| == |ids|
    ensures forall i :: 0 <= i < |ids| ==> out[i] == Unbracketed(ids[i])
  {
    out := ids;
    var i := 0;
    while i < |out|
      invariant 0 <= i <= |out| && |out| == |ids|
      invariant forall j :: 0 <= j < i ==> out[j] == Unbracketed(ids[j])
      invariant forall j :: i <= j < |out| ==> out[j] == ids[j]
    {
      if |out[i]| >= 2 && out[i][0] == '<' && out[i][|out[i]| - 1] == '>' {
        out := out[i := out[i][1..|out[i]| - 1]];
      }
      i := i + 1;
    }
  }

  // ---------------------------------------------------------------------
  // The local draft

  /** One value written to the draft stream. */
  datatype Field =
    | IntField(n: int)
    | BoolField(b: bool)
    | TextField(s: string)
    | KindField(k: RecipientKind)
    | StampField(t: DateTime)
    | ListField(items: seq<string>)

  /** What the window holds that a draft records, besides the time stamp,
      which is the outgoing message's own. */
  datatype Draft = Draft(sender: string, rows: seq<Row>, inReplyTo: seq<string>,
                         references: seq<string>, replyChecked: bool, subject: string, text: string)

  /** The version a draft is written with. */
  const DraftVersion: int := 3

  /** The kind and text of every row, in order. */
  function RowFields(rows: seq<Row>): seq<Field>
  {
    if rows == [] then []
    else RowFields(rows[..|rows| - 1]) + [KindField(rows[|rows| - 1].kind), TextField(rows[|rows| - 1].text)]
  }

  lemma {:induction false} RowFieldsAt(rows: seq<Row>)
    ensures |RowFields(rows)| == 2 * |rows|
    ensures forall i :: 0 <= i < |rows| ==>
      RowFields(rows)[2 * i] == KindField(rows[i].kind) && RowFields(rows)[2 * i + 1] == TextField(rows[i].text)
    decreases |rows|
  {
    if rows != [] {
      RowFieldsAt(rows[..|rows| - 1]);
    }
  }

  /** The fields of a draft in the order they are written: version,
      explicit-draft flag, sender, the recipient count and rows, the time
      stamp `stamp`, In-Reply-To, References, the reply flag, subject and
      text. */
  function DraftFields(explicitDraft: bool, d: Draft, stamp: DateTime): seq<Field>
  {
    [IntField(DraftVersion), BoolField(explicitDraft), TextField(d.sender), IntField(|d.rows|)] +
    RowFields(d.rows) +
    [StampField(stamp), ListField(d.inReplyTo), ListField(d.references), BoolField(d.replyChecked),
     TextField(d.subject), TextField(d.text)]
  }

  // A read past the end of the stream or of a field of another type gives
  // the zero value, as a data stream does.

  function IntAt(fs: seq<Field>, p: int): int
  {
    if 0 <= p < |fs| && fs[p].IntField? then fs[p].n else 0
  }

  function BoolAt(fs: seq<Field>, p: int): bool
  {
    0 <= p < |fs| && fs[p].BoolField? && fs[p].b
  }

  function TextAt(fs: seq<Field>, p: int): string
  {
    if 0 <= p < |fs| && fs[p].TextField? then fs[p].s else ""
  }

  function KindAt(fs: seq<Field>, p: int): RecipientKind
  {
    if 0 <= p < |fs| && fs[p].KindField? then fs[p].k else To
  }

  function StampAt(fs: seq<Field>, p: int): DateTime
  {
    if 0 <= p < |fs| && fs[p].StampField? then fs[p].t else DateTime("")
  }

  function ListAt(fs: seq<Field>, p: int): seq<string>
  {
    if 0 <= p < |fs| && fs[p].ListField? then fs[p].items else []
  }

  /** The row whose kind and text are the `i`-th pair of fields after the
      first four. */
  function RowAt(fs: seq<Field>, i: int): Row
  {
    Row(KindAt(fs, 4 + 2 * i), TextAt(fs, 4 + 2 * i + 1))
  }

  /** The rows read from the first `count` pairs, skipping those with
      empty text. */
  function LoadedRows(fs: seq<Field>, count: int): seq<Row>
    decreases if count < 0 then 0 else count
  {
    if count <= 0 then []
    else LoadedRows(fs, count - 1) + (if RowAt(fs, count - 1).text == [] then [] else [RowAt(fs, count - 1)])
  }

  /** Where the fields after the recipient rows start. */
  function RowsEnd(fs: seq<Field>): int
  {
    var count := IntAt(fs, 3);
    4 + 2 * (if count < 0 then 0 else count)
  }

  /** Where the fields after the threading lists start: they are only
      there from version 2 on. */
  function ThreadingEnd(fs: seq<Field>): int
  {
    if IntAt(fs, 0) >= 2 then RowsEnd(fs) + 3 else RowsEnd(fs)
  }

  /** Where the subject is: the reply flag before it is only there from
      version 3 on. */
  function SubjectAt(fs: seq<Field>): int
  {
    if IntAt(fs, 0) >= 3 then ThreadingEnd(fs) + 1 else ThreadingEnd(fs)
  }

  /** The reply flag: read from version 3 on, set by a version 2 draft
      that has In-Reply-To, otherwise left as it was. */
  function LoadedReply(fs: seq<Field>, d: Draft): bool
  {
    if IntAt(fs, 0) >= 3 then BoolAt(fs, ThreadingEnd(fs))
    else if IntAt(fs, 0) == 2 && ListAt(fs, RowsEnd(fs) + 1) != [] then true
    else d.replyChecked
  }

  /** A draft read back over `d`: loaded rows come after the rows already
      there; the In-Reply-To and References lists are read from version 2
      on and otherwise left as they were. The explicit-draft flag read
      along with it is `BoolAt(fs, 1)`, the time stamp `LoadedStamp`. */
  function Loaded(fs: seq<Field>, d: Draft): Draft
  {
    var threaded := IntAt(fs, 0) >= 2;
    var p := RowsEnd(fs);
    Draft(TextAt(fs, 2), d.rows + LoadedRows(fs, IntAt(fs, 3)),
          if threaded then ListAt(fs, p + 1) else d.inReplyTo,
          if threaded then ListAt(fs, p + 2) else d.references,
          LoadedReply(fs, d), TextAt(fs, SubjectAt(fs)), TextAt(fs, SubjectAt(fs) + 1))
  }

  /** The time stamp after reading a draft over `stamp`: read from version 2
      on, otherwise left as it was. */
  function LoadedStamp(fs: seq<Field>, stamp: DateTime): DateTime
  {
    if IntAt(fs, 0) >= 2 then StampAt(fs, RowsEnd(fs)) else stamp
  }

  /** Reads `count` recipient rows after `rows`, one pair of fields at a
      time, skipping rows without text. */
  method ReadRows(fs: seq<Field>, count: int, rows: seq<Row>) returns (res: seq<Row>)
    ensures res == rows + LoadedRows(fs, count)
  {
    res := rows;
    var p := 4;
    var i := 0;
    while i < count
      invariant 0 <= i <= (if count < 0 then 0 else count)
      invariant p == 4 + 2 * i
      invariant res == rows + LoadedRows(fs, i)
    {
      var row := Row(KindAt(fs, p), TextAt(fs, p + 1));
      assert row == RowAt(fs, i);
      LoadedRowsStep(fs, i);
      if row.text != [] {
        res := res + [row];
      }
      p := p + 2;
      i := i + 1;
    }
  }

  /** Reading one more pair of fields adds that row when it has text. */
  lemma LoadedRowsStep(fs: seq<Field>, i: nat)
    ensures LoadedRows(fs, i + 1) ==
      LoadedRows(fs, i) + (if RowAt(fs, i).text == [] then [] else [RowAt(fs, i)])
  {
  }

  /** Reads the fields after the recipient rows up to the subject: from
      version 2 on the time stamp and the threading lists, from version 3
      on the reply flag. */
  method ReadThreading(fs: seq<Field>, d: Draft, stamp: DateTime)
    returns (loadedStamp: DateTime, inReplyTo: seq<string>, references: seq<string>, reply: bool, p: int)
    ensures loadedStamp == LoadedStamp(fs, stamp) && reply == LoadedReply(fs, d) && p == SubjectAt(fs)
    ensures inReplyTo == (if IntAt(fs, 0) >= 2 then ListAt(fs, RowsEnd(fs) + 1) else d.inReplyTo)
    ensures references == (if IntAt(fs, 0) >= 2 then ListAt(fs, RowsEnd(fs) + 2) else d.references)
  {
    var version := IntAt(fs, 0);
    p := RowsEnd(fs);
    loadedStamp, inReplyTo, references, reply := stamp, d.inReplyTo, d.references, d.replyChecked;
    if version >= 2 {
      loadedStamp, inReplyTo, references := StampAt(fs, p), ListAt(fs, p + 1), ListAt(fs, p + 2);
      p := p + 3;
      if inReplyTo != [] && version == 2 {
        reply := true;
      }
    }
    if version >= 3 {
      reply := BoolAt(fs, p);
      p := p + 1;
    }
  }

  /** Reads the fields of a draft in order over `d` and the time stamp
      `stamp`, as `Loaded` and `LoadedStamp` say. */
  method ReadDraft(fs: seq<Field>, d: Draft, stamp: DateTime) returns (explicitDraft: bool, loaded: Draft, loadedStamp: DateTime)
    ensures explicitDraft == BoolAt(fs, 1) && loaded == Loaded(fs, d) && loadedStamp == LoadedStamp(fs, stamp)
  {
    explicitDraft := BoolAt(fs, 1);
    var sender := TextAt(fs, 2);
    var count := IntAt(fs, 3);
    var rows := ReadRows(fs, count, d.rows);
    var inReplyTo, references, reply, p;
    loadedStamp, inReplyTo, references, reply, p := ReadThreading(fs, d, stamp);
    loaded := Draft(sender, rows, inReplyTo, references, reply, TextAt(fs, p), TextAt(fs, p + 1));
  }

  lemma {:induction false} FilledSnoc(rows: seq<Row>, row: Row)
    ensures Filled(rows + [row]) == Filled(rows) + (if row.text == [] then [] else [row])
    decreases |rows|
  {
    if rows == [] {
      assert [row][1..] == [];
    } else {
      assert (rows + [row])[1..] == rows[1..] + [row];
      FilledSnoc(rows[1..], row);
    }
  }

  /** The rows of a saved draft read back are its rows with text. */
  /** The rows are read back from fields that hold their kinds and texts
      in pairs from position 4. */
  predicate HoldsRows(fs: seq<Field>, rows: seq<Row>)
  {
    forall i :: 0 <= i < |rows| ==> RowAt(fs, i) == rows[i]
  }

  /** The rows of a saved draft read back are its rows with text. */
  lemma {:induction false} LoadedRowsOfSaved(fs: seq<Field>, rows: seq<Row>, k: int)
    requires 0 <= k <= |rows|
    requires HoldsRows(fs, rows)
    ensures LoadedRows(fs, k) == Filled(rows[..k])
    decreases k
  {
    if k > 0 {
      var j := k - 1;
      LoadedRowsOfSaved(fs, rows, j);
      assert RowAt(fs, j) == rows[j];
      assert rows[..k] == rows[..j] + [rows[j]];
      FilledSnoc(rows[..j], rows[j]);
    } else {
      assert rows[..0] == [];
    }
  }

  /** Fields that start with four fields and then the rows hold the rows. */
  lemma RowFieldsHeld(head: seq<Field>, rows: seq<Row>, tail: seq<Field>)
    requires |head| == 4
    ensures HoldsRows(head + RowFields(rows) + tail, rows)
  {
    RowFieldsAt(rows);
    var fs := head + RowFields(rows) + tail;
    forall i | 0 <= i < |rows|
      ensures RowAt(fs, i) == rows[i]
    {
      assert fs[4 + 2 * i] == RowFields(rows)[2 * i];
      assert fs[4 + 2 * i + 1] == RowFields(rows)[2 * i + 1];
    }
  }

  /** Where each field of a saved draft is read from. */
  lemma SavedLayout(explicitDraft: bool, d: Draft, stamp: DateTime)
    ensures var fs := DraftFields(explicitDraft, d, stamp);
      var p := 4 + 2 * |d.rows|;
      IntAt(fs, 0) == DraftVersion && BoolAt(fs, 1) == explicitDraft && TextAt(fs, 2) == d.sender &&
      IntAt(fs, 3) == |d.rows| && |fs| == p + 6 && HoldsRows(fs, d.rows) &&
      StampAt(fs, p) == stamp && ListAt(fs, p + 1) == d.inReplyTo && ListAt(fs, p + 2) == d.references &&
      BoolAt(fs, p + 3) == d.replyChecked && TextAt(fs, p + 4) == d.subject && TextAt(fs, p + 5) == d.text
  {
    var n := |d.rows|;
    var head := [IntField(DraftVersion), BoolField(explicitDraft), TextField(d.sender), IntField(n)];
    var tail := [StampField(stamp), ListField(d.inReplyTo), ListField(d.references), BoolField(d.replyChecked),
                 TextField(d.subject), TextField(d.text)];
    RowFieldsAt(d.rows);
    var fs := DraftFields(explicitDraft, d, stamp);
    assert fs == head + RowFields(d.rows) + tail;
    RowFieldsHeld(head, d.rows, tail);
    var p := 4 + 2 * n;
    assert fs[p..] == tail;
  }

  /** Saving a draft and loading it into a window gives back the
      explicit-draft flag, the time stamp and every field; the rows with
      text come after the rows the window had, such as the blank To row of
      a new window. */
  lemma DraftRoundTrip(explicitDraft: bool, d: Draft, stamp: DateTime, start: Draft, startStamp: DateTime)
    ensures BoolAt(DraftFields(explicitDraft, d, stamp), 1) == explicitDraft
    ensures Loaded(DraftFields(explicitDraft, d, stamp), start) == d.(rows := start.rows + Filled(d.rows))
    ensures LoadedStamp(DraftFields(explicitDraft, d, stamp), startStamp) == stamp
  {
    SavedPositions(explicitDraft, d, stamp, start);
    LoadedFromLayout(DraftFields(explicitDraft, d, stamp), d, stamp, start, startStamp);
  }

  /** Fields laid out as a saved draft's load back as that draft. */
  lemma LoadedFromLayout(fs: seq<Field>, d: Draft, stamp: DateTime, start: Draft, startStamp: DateTime)
    requires var p := 4 + 2 * |d.rows|;
      IntAt(fs, 0) == DraftVersion && TextAt(fs, 2) == d.sender &&
      IntAt(fs, 3) == |d.rows| && HoldsRows(fs, d.rows) &&
      RowsEnd(fs) == p && SubjectAt(fs) == p + 4 && LoadedReply(fs, start) == d.replyChecked &&
      StampAt(fs, p) == stamp && ListAt(fs, p + 1) == d.inReplyTo && ListAt(fs, p + 2) == d.references &&
      TextAt(fs, p + 4) == d.subject && TextAt(fs, p + 5) == d.text
    ensures Loaded(fs, start) == d.(rows := start.rows + Filled(d.rows))
    ensures LoadedStamp(fs, startStamp) == stamp
  {
    var n := |d.rows|;
    LoadedRowsOfSaved(fs, d.rows, n);
    assert d.rows[..n] == d.rows;
  }

  /** Where a reader of a saved draft finds the fields after the rows. */
  lemma SavedPositions(explicitDraft: bool, d: Draft, stamp: DateTime, start: Draft)
    ensures var fs := DraftFields(explicitDraft, d, stamp);
      var p := 4 + 2 * |d.rows|;
      IntAt(fs, 0) == DraftVersion && BoolAt(fs, 1) == explicitDraft && TextAt(fs, 2) == d.sender &&
      IntAt(fs, 3) == |d.rows| && HoldsRows(fs, d.rows) &&
      RowsEnd(fs) == p && SubjectAt(fs) == p + 4 && LoadedReply(fs, start) == d.replyChecked &&
      StampAt(fs, p) == stamp && ListAt(fs, p + 1) == d.inReplyTo && ListAt(fs, p + 2) == d.references &&
      TextAt(fs, p + 4) == d.subject && TextAt(fs, p + 5) == d.text
  {
    SavedLayout(explicitDraft, d, stamp);
  }

  /** A version 1 draft carries no time stamp, threading or reply flag:
      those keep the values the window had, and the subject and text come
      straight after the rows. */
  lemma VersionOneDraft(explicitDraft: bool, d: Draft, start: Draft, startStamp: DateTime)
    ensures var fs := [IntField(1), BoolField(explicitDraft), TextField(d.sender), IntField(|d.rows|)] +
                      RowFields(d.rows) + [TextField(d.subject), TextField(d.text)];
      Loaded(fs, start) ==
        Draft(d.sender, start.rows + Filled(d.rows), start.inReplyTo, start.references,
              start.replyChecked, d.subject, d.text) &&
      LoadedStamp(fs, startStamp) == startStamp
  {
    var n := |d.rows|;
    var head := [IntField(1), BoolField(explicitDraft), TextField(d.sender), IntField(n)];
    var tail := [TextField(d.subject), TextField(d.text)];
    var fs := head + RowFields(d.rows) + tail;
    RowFieldsAt(d.rows);
    assert IntAt(fs, 0) == 1 && IntAt(fs, 3) == n && TextAt(fs, 2) == d.sender;
    RowFieldsHeld(head, d.rows, tail);
    LoadedRowsOfSaved(fs, d.rows, n);
    assert d.rows[..n] == d.rows;
    assert SubjectAt(fs) == 4 + 2 * n;
    assert fs[4 + 2 * n] == TextField(d.subject) && fs[4 + 2 * n + 1] == TextField(d.text);
  }

  // ---------------------------------------------------------------------
  // Closing, auto-saving and the checks before sending

  /** Closing asks to save unless the mail was sent, was never edited, or
      is an explicit draft with no change since it was saved. */
  predicate NeedsSave(sentMail: bool, everEdited: bool, explicitDraft: bool, updated: bool)
  {
    !(sentMail || !everEdited || (explicitDraft && !updated))
  }

  /** A sent or never edited message never asks; an edited, unsent one
      asks exactly when it is not an explicit draft or has changed since. */
  lemma NeedsSaveMeans(sentMail: bool, everEdited: bool, explicitDraft: bool, updated: bool)
    ensures NeedsSave(sentMail, everEdited, explicitDraft, updated) ==> !sentMail && everEdited
    ensures !sentMail && everEdited ==>
      (NeedsSave(sentMail, everEdited, explicitDraft, updated) <==> !explicitDraft || updated)
  {
  }

  /** The answer to the save question. */
  datatype Answer = Save | Discard | Cancel

  /** Files the window writes and removes. */
  datatype FileEvent = Saved(path: string, fields: seq<Field>) | Removed(path: string)

  /** Why a message is not handed to submission, checked in this order. */
  datatype BuildFailure = CannotParse(message: string) | NoRecipients | InvalidFrom | NoSubject

  /** The first check that fails, if any. */
  function BuildCheck(parsed: (seq<Recipient>, Outcome<FormFailure>), from: Option<MailAddress>, subject: string): Option<BuildFailure>
  {
    if parsed.1.Fail? then
      Some(CannotParse(if parsed.1.failure.Unparseable? then ParseErrorMessage(parsed.1.failure.text) else ""))
    else if parsed.0 == [] then Some(NoRecipients)
    else if from.None? then Some(InvalidFrom)
    else if subject == [] then Some(NoSubject)
    else None
  }

  /** Earlier checks win: a recipient that does not parse is reported
      whatever the sender and subject; a valid message has recipients, a
      sender and a subject. */
  lemma BuildCheckOrder(parsed: (seq<Recipient>, Outcome<FormFailure>), from: Option<MailAddress>, subject: string)
    ensures parsed.1.Fail? ==> BuildCheck(parsed, from, subject).Some? && BuildCheck(parsed, from, subject).value.CannotParse?
    ensures BuildCheck(parsed, from, subject) == Some(InvalidFrom) ==> parsed.1.Pass? && parsed.0 != []
    ensures BuildCheck(parsed, from, subject) == Some(NoSubject) ==> parsed.1.Pass? && parsed.0 != [] && from.Some?
    ensures BuildCheck(parsed, from, subject).None? <==> parsed.1.Pass? && parsed.0 != [] && from.Some? && subject != []
  {
  }

  class ComposeWidget {
    var sentMail: bool
    var messageUpdated: bool
    var messageEverEdited: bool
    var explicitDraft: bool
    var autoSavePath: string
    var contents: Draft
    var files: seq<FileEvent>
    /** The message handed to submission. */
    const composer: Outgoing.OutgoingMessage

    /** A new window: nothing edited or saved yet, and one blank To row. */
    constructor (path: string)
      ensures !sentMail && !messageUpdated && !messageEverEdited && !explicitDraft
      ensures autoSavePath == path && files == [] && fresh(composer)
      ensures !SaveRequired()
      ensures contents == Draft("", [Row(To, "")], [], [], false, "", "")
    {
      sentMail := false;
      messageUpdated := false;
      messageEverEdited := false;
      explicitDraft := false;
      autoSavePath := path;
      contents := Draft("", [Row(To, "")], [], [], false, "", "");
      files := [];
      composer := new Outgoing.OutgoingMessage();
    }

    predicate SaveRequired()
      reads this
    {
      NeedsSave(sentMail, messageEverEdited, explicitDraft, messageUpdated)
    }

    /** Writes the draft fields to `path`, the rows one by one, with the
      outgoing message's time stamp. */
    method SaveDraft(path: string)
      modifies this
      ensures files == old(files) + [Saved(path, DraftFields(explicitDraft, contents, composer.timestamp))]
      ensures contents == old(contents) && explicitDraft == old(explicitDraft) && autoSavePath == old(autoSavePath)
      ensures sentMail == old(sentMail) && messageUpdated == old(messageUpdated) && messageEverEdited == old(messageEverEdited)
    {
      var fields := [IntField(DraftVersion), BoolField(explicitDraft), TextField(contents.sender), IntField(|contents.rows|)];
      var rows := contents.rows;
      var i := 0;
      while i < |rows|
        invariant 0 <= i <= |rows|
        invariant fields == [IntField(DraftVersion), BoolField(explicitDraft), TextField(contents.sender), IntField(|rows|)] +
                            RowFields(rows[..i])
      {
        assert rows[..i + 1][..i] == rows[..i];
        fields := fields + [KindField(rows[i].kind), TextField(rows[i].text)];
        i := i + 1;
      }
      assert rows[..i] == rows;
      fields := fields + [StampField(composer.Timestamp()), ListField(contents.inReplyTo), ListField(contents.references),
                          BoolField(contents.replyChecked), TextField(contents.subject), TextField(contents.text)];
      files := files + [Saved(path, fields)];
    }

    /** Reads a draft from `path`, which becomes the auto-save path; the
      former auto-save file is removed. A draft of version 2 or later sets
      the outgoing message's time stamp. The loaded draft is up to date. */
    method LoadDraft(path: string, fs: seq<Field>)
      modifies this, composer
      ensures explicitDraft == BoolAt(fs, 1) && contents == Loaded(fs, old(contents))
      ensures composer.timestamp == LoadedStamp(fs, old(composer.timestamp))
      ensures composer.from == old(composer.from) && composer.recipients == old(composer.recipients)
      ensures !messageUpdated && autoSavePath == path
      ensures files == old(files) + (if old(autoSavePath) != path then [Removed(old(autoSavePath))] else [])
      ensures sentMail == old(sentMail) && messageEverEdited == old(messageEverEdited)
    {
      if autoSavePath != path {
        files := files + [Removed(autoSavePath)];
        autoSavePath := path;
      }
      var stamp;
      explicitDraft, contents, stamp := ReadDraft(fs, contents, composer.Timestamp());
      if IntAt(fs, 0) >= 2 {
        composer.SetTimestamp(stamp);
      }
      messageUpdated := false;
    }

    /** Every edit marks the message changed and ever edited. */
    method SetMessageUpdated()
      modifies this
      ensures messageUpdated && messageEverEdited
      ensures sentMail == old(sentMail) && explicitDraft == old(explicitDraft)
      ensures contents == old(contents) && files == old(files) && autoSavePath == old(autoSavePath)
      ensures SaveRequired() <==> !sentMail
    {
      messageEverEdited := true;
      messageUpdated := true;
    }

    /** Saves to the auto-save path only when something changed since the
      last save, and marks the message saved; an explicit draft then needs
      no question on closing. */
    method AutoSaveDraft()
      modifies this
      ensures !messageUpdated
      ensures files == old(files) + (if old(messageUpdated) then [Saved(autoSavePath, DraftFields(explicitDraft, contents, composer.timestamp))] else [])
      ensures sentMail == old(sentMail) && explicitDraft == old(explicitDraft) && messageEverEdited == old(messageEverEdited)
      ensures contents == old(contents) && autoSavePath == old(autoSavePath)
      ensures explicitDraft ==> !SaveRequired()
    {
      if messageUpdated {
        messageUpdated := false;
        SaveDraft(autoSavePath);
      }
    }

    /** The message went out; the window closes without a question. */
    method Sent()
      modifies this
      ensures sentMail && !SaveRequired()
      ensures messageUpdated == old(messageUpdated) && messageEverEdited == old(messageEverEdited) && explicitDraft == old(explicitDraft)
      ensures contents == old(contents) && files == old(files) && autoSavePath == old(autoSavePath)
    {
      sentMail := true;
    }

    /** Closing the window: when a save is required the user's `answer`
      decides; saving a message that is not yet an explicit draft goes to
      `chosenPath`, and an empty path cancels. The window stays open on
      cancel; otherwise the auto-save file is removed unless the message is
      kept as an explicit draft. */
    method CloseEvent(answer: Answer, chosenPath: string) returns (accepted: bool)
      modifies this
      ensures !old(SaveRequired()) ==>
        (accepted && explicitDraft == old(explicitDraft) &&
         files == old(files) + (if sentMail || !explicitDraft then [Removed(autoSavePath)] else []))
      ensures old(SaveRequired()) && answer == Cancel ==> !accepted && files == old(files)
      ensures old(SaveRequired()) && answer == Discard ==>
        (accepted && files == old(files) + (if explicitDraft then [] else [Removed(autoSavePath)]))
      ensures old(SaveRequired()) && answer == Save && old(explicitDraft) ==>
        (accepted && files == old(files) + [Saved(autoSavePath, DraftFields(true, contents, composer.timestamp))])
      ensures old(SaveRequired()) && answer == Save && !old(explicitDraft) && chosenPath == [] ==> !accepted && files == old(files)
      ensures old(SaveRequired()) && answer == Save && !old(explicitDraft) && chosenPath != [] ==>
        (accepted && explicitDraft &&
         files == old(files) + [Saved(chosenPath, DraftFields(true, contents, composer.timestamp))] +
                  (if chosenPath != autoSavePath then [Removed(autoSavePath)] else []))
      ensures contents == old(contents) && autoSavePath == old(autoSavePath) && sentMail == old(sentMail)
    {
      if SaveRequired() {
        var ret := answer;
        if answer == Save {
          if explicitDraft {
            SaveDraft(autoSavePath);
          } else if chosenPath == [] {
            ret := Cancel;
          } else {
            explicitDraft := true;
            SaveDraft(chosenPath);
            if chosenPath != autoSavePath {
              files := files + [Removed(autoSavePath)];
            }
          }
        }
        if ret == Cancel {
          return false;
        }
      }
      if sentMail || !explicitDraft {
        files := files + [Removed(autoSavePath)];
      }
      accepted := true;
    }

    /** Checks the recipients, the sender and the subject, in this order,
      and fills the outgoing message: the recipients once they parse and
      are not empty, the sender and the time stamp once every check
      passed. */
    method BuildMessageData(parse: string -> Option<MailAddress>, senderText: string, now: DateTime)
      returns (outcome: Outcome<BuildFailure>)
      modifies composer
      ensures var parsed := Parsed(contents.rows, parse);
        var check := BuildCheck(parsed, parse(senderText), contents.subject);
        (check.Some? ==> outcome == Fail(check.value)) &&
        (check.None? ==> outcome == Pass) &&
        composer.recipients == (if parsed.1.Pass? && parsed.0 != [] then parsed.0 else old(composer.recipients)) &&
        composer.from == (if check.None? then parse(senderText).value else old(composer.from)) &&
        composer.timestamp == (if check.None? then now else old(composer.timestamp))
    {
      var (recipients, parsed) := Parsed(contents.rows, parse);
      if parsed.Fail? {
        var message := if parsed.failure.Unparseable? then ParseErrorMessage(parsed.failure.text) else "";
        return Fail(CannotParse(message));
      }
      if recipients == [] {
        return Fail(NoRecipients);
      }
      composer.SetRecipients(recipients);
      var from := parse(senderText);
      if from.None? {
        return Fail(InvalidFrom);
      }
      if contents.subject == [] {
        return Fail(NoSubject);
      }
      composer.SetFrom(from.value);
      composer.SetTimestamp(now);
      outcome := Pass;
    }
  }
}
