/** The recipient rows of the message envelope form. Each row is a kind
    chosen in a combo box and the text of a line edit; the widgets
    themselves, focus, scrolling and geometry are not modelled. The form
    keeps one empty row at hand for the next recipient, shows a slider when
    there are more rows than fit, and turns the rows into recipients when
    the message is sent. */
module EnvelopeForm {
  import opened Outcomes
  import opened Addresses

  /** One recipient row: the kind in its combo box and its text. */
  datatype Row = Row(kind: RecipientKind, text: string)

  datatype FormFailure =
    | UnexpectedKind(kind: RecipientKind)   // a From, Sender or Reply-To row, an assertion in the source
    | Unparseable(text: string)             // a row whose text is not an address

  /** The message shown for a row that is not an address. */
  function ParseErrorMessage(text: string): (message: string)
    ensures |message| > 13 + |text| && message[..13] == "Can't parse \"" && message[13..13 + |text|] == text
  {
    var m := "Can't parse \"" + text + "\" as an e-mail address.";
    assert m[..13] == "Can't parse \"" && m[13..13 + |text|] == text;
    m
  }

  /** The fewest rows the form shows without a slider. */
  const MinMaxVisibleRecipients: int := 4

  /** The kind of the row added after a row of `kind`: Cc after To, the same
      kind after Cc or Bcc; other kinds never appear in a row. */
  function NextRowKind(kind: RecipientKind): (r: Result<RecipientKind, FormFailure>)
    ensures r.Ok? <==> kind == To || kind == Cc || kind == Bcc
    ensures r.Ok? ==> r.value != To && (kind != To ==> r.value == kind)
    ensures r.Err? ==> r.error == UnexpectedKind(kind)
  {
    match kind
    case To => Ok(Cc)
    case Cc => Ok(kind)
    case Bcc => Ok(kind)
    case _ => Err(UnexpectedKind(kind))
  }

  /** How far the slider reaches: the rows that do not fit, or none. */
  function SliderMaximum(count: int, maxVisible: int): (m: int)
    ensures m >= 0 && m >= count - maxVisible
    ensures m == 0 || m == count - maxVisible
    ensures m > 0 <==> count > maxVisible
  {
    if count - maxVisible > 0 then count - maxVisible else 0
  }

  /** The number of rows with empty text. */
  function Empties(rows: seq<Row>): (count: nat)
  {
    if rows == [] then 0 else (if rows[0].text == [] then 1 else 0) + Empties(rows[1..])
  }

  /** The rows with text, in order. */
  function Filled(rows: seq<Row>): (f: seq<Row>)
    ensures |f| + Empties(rows) == |rows|
  {
    if rows == [] then [] else (if rows[0].text == [] then [] else [rows[0]]) + Filled(rows[1..])
  }

  /** The rows left once every empty row but the first is removed; `seen`
      says an empty row came before. */
  function KeepFirstEmpty(rows: seq<Row>, seen: bool): seq<Row>
  {
    if rows == [] then []
    else if rows[0].text == [] && seen then KeepFirstEmpty(rows[1..], true)
    else [rows[0]] + KeepFirstEmpty(rows[1..], seen || rows[0].text == [])
  }

  /** The source's sweep: after removing row `i` it still moves on to
      `i + 1`, so the row that slid into place `i` is never looked at. */
  function SweepAsWritten(rows: seq<Row>, seen: bool): seq<Row>
  {
    if rows == [] then []
    else if rows[0].text == [] && seen then (if |rows| == 1 then [] else [rows[1]] + SweepAsWritten(rows[2..], true))
    else [rows[0]] + SweepAsWritten(rows[1..], seen || rows[0].text == [])
  }

  /** Three empty rows keep two of them in the source's sweep, where one
      was meant to remain. */
  lemma SweepAsWrittenKeepsTwoEmpty()
    ensures var e := Row(To, "");
      Empties(SweepAsWritten([e, e, e], false)) == 2 &&
      Empties(KeepFirstEmpty([e, e, e], false)) == 1
  {
    var e := Row(To, "");
    assert [e, e, e][1..] == [e, e];
    assert [e, e][2..] == [];
    assert [e, e][1..] == [e];
    assert SweepAsWritten([e, e], true) == [e];
    assert SweepAsWritten([e, e, e], false) == [e, e];
    assert Empties([e]) == 1;
    assert KeepFirstEmpty([e], true) == [];
    assert KeepFirstEmpty([e, e], true) == [];
    assert KeepFirstEmpty([e, e, e], false) == [e];
  }

  lemma RowsCons(row: Row, rest: seq<Row>)
    ensures Filled([row] + rest) == (if row.text == [] then [] else [row]) + Filled(rest)
    ensures Empties([row] + rest) == (if row.text == [] then 1 else 0) + Empties(rest)
  {
    assert ([row] + rest)[1..] == rest;
  }

  /** The source's sweep still removes only empty rows, never takes away
      the first empty row when none was seen before, and keeps at most the
      empty rows there were. */
  lemma {:induction false} SweepAsWrittenMeans(rows: seq<Row>, seen: bool)
    ensures Filled(SweepAsWritten(rows, seen)) == Filled(rows)
    ensures Empties(SweepAsWritten(rows, seen)) <= Empties(rows)
    ensures !seen && Empties(rows) > 0 ==> Empties(SweepAsWritten(rows, seen)) >= 1
    decreases |rows|
  {
    if rows != [] {
      RowsCons(rows[0], rows[1..]);
      assert rows == [rows[0]] + rows[1..];
      if rows[0].text == [] && seen {
        if |rows| > 1 {
          var rest := rows[1..];
          RowsCons(rest[0], rest[1..]);
          assert rest == [rest[0]] + rest[1..] && rest[1..] == rows[2..];
          SweepAsWrittenMeans(rows[2..], true);
          RowsCons(rows[1], SweepAsWritten(rows[2..], true));
        }
      } else {
        SweepAsWrittenMeans(rows[1..], seen || rows[0].text == []);
        RowsCons(rows[0], SweepAsWritten(rows[1..], seen || rows[0].text == []));
      }
    }
  }

  /** In the source's sweep, too, every row up to and including the first
      empty row stays where it was. */
  lemma {:induction false} FirstEmptyKeptAsWritten(rows: seq<Row>, j: int)
    requires 0 <= j < |rows| && rows[j].text == []
    requires forall i :: 0 <= i < j ==> rows[i].text != []
    ensures |SweepAsWritten(rows, false)| > j
    ensures SweepAsWritten(rows, false)[..j + 1] == rows[..j + 1]
    decreases j
  {
    var k := SweepAsWritten(rows, false);
    if j > 0 {
      FirstEmptyKeptAsWritten(rows[1..], j - 1);
      assert k == [rows[0]] + SweepAsWritten(rows[1..], false);
      assert rows[..j + 1] == [rows[0]] + rows[1..][..j];
    } else {
      assert k == [rows[0]] + SweepAsWritten(rows[1..], true);
    }
  }

  /** The source's update: its sweep, or the row added when no row was
      empty. */
  function UpdatedAsWritten(rows: seq<Row>): Result<seq<Row>, FormFailure>
  {
    if Empties(rows) > 0 then Ok(SweepAsWritten(rows, false)) else Updated(rows)
  }

  /** After the source's update at least one row is empty and the filled
      rows are those of before, in order; it fails in the same case as the
      corrected update. */
  lemma UpdatedAsWrittenMeans(rows: seq<Row>)
    ensures UpdatedAsWritten(rows).Ok? ==>
      Empties(UpdatedAsWritten(rows).value) >= 1 && Filled(UpdatedAsWritten(rows).value) == Filled(rows)
    ensures UpdatedAsWritten(rows).Err? <==> Updated(rows).Err?
  {
    if Empties(rows) > 0 {
      SweepAsWrittenMeans(rows, false);
    } else {
      UpdatedMeans(rows);
    }
  }

  /** The sweep removes only empty rows, and keeps exactly one empty row
      when there was one and none had been seen. */
  lemma {:induction false} KeepFirstEmptyMeans(rows: seq<Row>, seen: bool)
    ensures Filled(KeepFirstEmpty(rows, seen)) == Filled(rows)
    ensures Empties(KeepFirstEmpty(rows, seen)) == if seen || Empties(rows) == 0 then 0 else 1
    decreases |rows|
  {
    if rows != [] {
      KeepFirstEmptyMeans(rows[1..], seen || rows[0].text == []);
      if !(rows[0].text == [] && seen) {
        var k := KeepFirstEmpty(rows, seen);
        assert k[0] == rows[0] && k[1..] == KeepFirstEmpty(rows[1..], seen || rows[0].text == []);
      }
    }
  }

  /** Every row up to and including the first empty row stays where it
      was. */
  lemma {:induction false} FirstEmptyKept(rows: seq<Row>, j: int)
    requires 0 <= j < |rows| && rows[j].text == []
    requires forall i :: 0 <= i < j ==> rows[i].text != []
    ensures |KeepFirstEmpty(rows, false)| > j
    ensures KeepFirstEmpty(rows, false)[..j + 1] == rows[..j + 1]
    decreases j
  {
    if j > 0 {
      FirstEmptyKept(rows[1..], j - 1);
      var k := KeepFirstEmpty(rows, false);
      assert k == [rows[0]] + KeepFirstEmpty(rows[1..], false);
      assert rows[..j + 1] == [rows[0]] + rows[1..][..j];
    }
  }

  /** A list without empty rows is left as it is. */
  lemma {:induction false} NothingToSweep(rows: seq<Row>, seen: bool)
    requires Empties(rows) == 0
    ensures KeepFirstEmpty(rows, seen) == rows
    decreases |rows|
  {
    if rows != [] {
      NothingToSweep(rows[1..], seen);
    }
  }

  /** One step of the sweep at row `i`. */
  lemma SweepStep(rows: seq<Row>, i: int, seen: bool)
    requires 0 <= i < |rows|
    ensures rows[..i] + KeepFirstEmpty(rows[i..], seen) ==
      if rows[i].text == [] && seen then rows[..i] + KeepFirstEmpty(rows[i + 1..], true)
      else rows[..i + 1] + KeepFirstEmpty(rows[i + 1..], seen || rows[i].text == [])
    ensures Empties(rows[i..]) == (if rows[i].text == [] then 1 else 0) + Empties(rows[i + 1..])
  {
    assert rows[i..][1..] == rows[i + 1..];
    assert rows[..i + 1] == rows[..i] + [rows[i]];
  }

  /** Where the sweep ends: with an empty row kept, the update is the
      sweep; without one, nothing was removed and the update adds a row. */
  lemma SweepDone(before: seq<Row>, rows: seq<Row>, i: int, seen: bool)
    requires i == |rows|
    requires rows[..i] + KeepFirstEmpty(rows[i..], seen) == KeepFirstEmpty(before, false)
    requires (seen || Empties(rows[i..]) > 0) == (Empties(before) > 0)
    ensures seen ==> Updated(before) == Ok(rows)
    ensures !seen ==> rows == before && Empties(before) == 0
  {
    assert rows[..i] == rows && rows[i..] == [];
    assert KeepFirstEmpty(rows[i..], seen) == [];
    if seen {
      assert rows == KeepFirstEmpty(before, false);
      assert Empties(before) > 0;
      assert Updated(before) == Ok(KeepFirstEmpty(before, false));
    }
    if !seen {
      NothingToSweep(before, false);
    }
  }

  /** The rows after an update: duplicates of the empty row removed, and an
      empty row added at the end when there was none, of kind To in an
      empty list and otherwise of the kind that follows the last row's. */
  function Updated(rows: seq<Row>): Result<seq<Row>, FormFailure>
  {
    if Empties(rows) > 0 then Ok(KeepFirstEmpty(rows, false))
    else if rows == [] then Ok([Row(To, "")])
    else match NextRowKind(rows[|rows| - 1].kind)
      case Ok(k) => Ok(rows + [Row(k, "")])
      case Err(e) => Err(e)
  }

  /** After an update exactly one row is empty and the filled rows are
      those of before, in order; it fails only when no row was empty and
      the last row has a kind the form never offers. */
  lemma UpdatedMeans(rows: seq<Row>)
    ensures Updated(rows).Ok? ==>
      Empties(Updated(rows).value) == 1 && Filled(Updated(rows).value) == Filled(rows)
    ensures Updated(rows).Err? <==>
      Empties(rows) == 0 && rows != [] && NextRowKind(rows[|rows| - 1].kind).Err?
  {
    if Empties(rows) > 0 {
      KeepFirstEmptyMeans(rows, false);
    } else if rows == [] {
      assert [Row(To, "")][1..] == [];
    } else {
      var next := NextRowKind(rows[|rows| - 1].kind);
      if next.Ok? {
        assert Updated(rows) == Ok(rows + [Row(next.value, "")]);
        FilledAppendEmpty(rows, next.value);
      }
    }
  }

  lemma {:induction false} FilledAppendEmpty(rows: seq<Row>, k: RecipientKind)
    ensures Filled(rows + [Row(k, "")]) == Filled(rows)
    ensures Empties(rows + [Row(k, "")]) == Empties(rows) + 1
    decreases |rows|
  {
    if rows != [] {
      assert (rows + [Row(k, "")])[1..] == rows[1..] + [Row(k, "")];
      FilledAppendEmpty(rows[1..], k);
    } else {
      assert [Row(k, "")][1..] == [];
    }
  }

  /** How the rows become recipients: empty rows are skipped, the others
      are parsed in order, and the first that does not parse stops the
      work; the recipients found before it are kept. */
  function Parsed(rows: seq<Row>, parse: string -> Option<MailAddress>): (seq<Recipient>, Outcome<FormFailure>)
  {
    if rows == [] then ([], Pass)
    else if rows[0].text == [] then Parsed(rows[1..], parse)
    else match parse(rows[0].text)
      case None => ([], Fail(Unparseable(rows[0].text)))
      case Some(a) =>
        var (rest, o) := Parsed(rows[1..], parse);
        ([Recipient(rows[0].kind, a)] + rest, o)
  }

  /** Every row's text parses. */
  predicate AllParse(rows: seq<Row>, parse: string -> Option<MailAddress>)
  {
    forall k :: 0 <= k < |rows| ==> parse(rows[k].text).Some?
  }

  lemma AllParseCons(row: Row, rest: seq<Row>, parse: string -> Option<MailAddress>)
    ensures AllParse([row] + rest, parse) <==> parse(row.text).Some? && AllParse(rest, parse)
  {
    var rows := [row] + rest;
    if parse(row.text).Some? && AllParse(rest, parse) {
      forall k | 0 <= k < |rows|
        ensures parse(rows[k].text).Some?
      {
        if k > 0 {
          assert rows[k] == rest[k - 1];
        }
      }
    }
    if AllParse(rows, parse) {
      assert rows[0] == row;
      forall k | 0 <= k < |rest|
        ensures parse(rest[k].text).Some?
      {
        assert rest[k] == rows[k + 1];
      }
    }
  }

  /** The recipients found are the first filled rows, with their kinds
      and parsed addresses. */
  lemma {:induction false} ParsedRecipients(rows: seq<Row>, parse: string -> Option<MailAddress>)
    ensures var rs := Parsed(rows, parse).0; var f := Filled(rows);
      |rs| <= |f| &&
      forall k :: 0 <= k < |rs| ==> rs[k].kind == f[k].kind && parse(f[k].text) == Some(rs[k].address)
    decreases |rows|
  {
    if rows != [] {
      ParsedRecipients(rows[1..], parse);
      var f := Filled(rows);
      var f' := Filled(rows[1..]);
      var rs := Parsed(rows, parse).0;
      var rs' := Parsed(rows[1..], parse).0;
      if rows[0].text != [] && parse(rows[0].text).Some? {
        assert f == [rows[0]] + f';
        assert rs == [Recipient(rows[0].kind, parse(rows[0].text).value)] + rs';
        forall k | 0 <= k < |rs|
          ensures rs[k].kind == f[k].kind && parse(f[k].text) == Some(rs[k].address)
        {
          if k > 0 {
            assert rs[k] == rs'[k - 1] && f[k] == f'[k - 1];
          }
        }
      } else if rows[0].text == [] {
        assert f == f';
      }
    }
  }

  /** Parsing succeeds exactly when every filled row parses, and then
      yields one recipient per filled row; a failure names the filled row
      right after the recipients found, which does not parse. */
  lemma {:induction false} ParsedOutcome(rows: seq<Row>, parse: string -> Option<MailAddress>)
    ensures var (rs, o) := Parsed(rows, parse); var f := Filled(rows);
      (o.Pass? <==> AllParse(f, parse)) &&
      (o.Pass? ==> |rs| == |f|) &&
      (o.Fail? ==> |rs| < |f| && o.failure == Unparseable(f[|rs|].text) && parse(f[|rs|].text).None?)
    decreases |rows|
  {
    if rows != [] {
      ParsedOutcome(rows[1..], parse);
      var f := Filled(rows);
      var f' := Filled(rows[1..]);
      if rows[0].text != [] {
        assert f == [rows[0]] + f';
        AllParseCons(rows[0], f', parse);
        if parse(rows[0].text).Some? {
          var (rs, o) := Parsed(rows, parse);
          var (rs', o') := Parsed(rows[1..], parse);
          assert rs == [Recipient(rows[0].kind, parse(rows[0].text).value)] + rs' && o == o';
          assert o.Fail? ==> f[|rs|] == f'[|rs'|];
        }
      } else {
        assert f == f';
      }
    } else {
      assert Filled(rows) == [];
    }
  }

  /** The recipients are the filled rows in order, with their kinds and
      parsed addresses, up to the first failure; parsing succeeds exactly
      when every filled row parses, and otherwise names a filled row that
      does not, every filled row before it having parsed. */
  lemma ParsedMeans(rows: seq<Row>, parse: string -> Option<MailAddress>)
    ensures var (rs, o) := Parsed(rows, parse); var f := Filled(rows);
      |rs| <= |f| &&
      (forall k :: 0 <= k < |rs| ==> rs[k].kind == f[k].kind && parse(f[k].text) == Some(rs[k].address)) &&
      (o.Pass? <==> forall k :: 0 <= k < |f| ==> parse(f[k].text).Some?) &&
      (o.Pass? ==> |rs| == |f|) &&
      (o.Fail? ==> |rs| < |f| && o.failure == Unparseable(f[|rs|].text) && parse(f[|rs|].text).None?)
  {
    ParsedRecipients(rows, parse);
    ParsedOutcome(rows, parse);
  }


  /** The number of occupied rows in `occupied`. */
  function Occupied(occupied: seq<bool>): nat
  {
    if occupied == [] then 0 else Occupied(occupied[..|occupied| - 1]) + (if occupied[|occupied| - 1] then 1 else 0)
  }

  /** The first layout row preceded by exactly `row` occupied rows, or the
      row count when there is none: the layout keeps emptied rows, so a
      logical row index has to skip them. */
  method ActualRow(occupied: seq<bool>, row: int) returns (r: int)
    ensures 0 <= r <= |occupied|
    ensures forall i :: 0 <= i < r ==> Occupied(occupied[..i]) != row
    ensures r < |occupied| ==> Occupied(occupied[..r]) == row
  {
    var i, c := 0, 0;
    while i < |occupied|
      invariant 0 <= i <= |occupied|
      invariant c == Occupied(occupied[..i])
      invariant forall j :: 0 <= j < i ==> Occupied(occupied[..j]) != row
    {
      if c == row {
        return i;
      }
      assert occupied[..i + 1][..i] == occupied[..i];
      if occupied[i] {
        c := c + 1;
      }
      i := i + 1;
    }
    return |occupied|;
  }

  /** Counting occupied rows goes up by at most one a row, so every count
      below the total is reached before the end. */
  lemma {:induction false} ActualRowInside(occupied: seq<bool>, row: int)
    requires 0 <= row < Occupied(occupied)
    ensures exists i :: 0 <= i < |occupied| && Occupied(occupied[..i]) == row
    decreases |occupied|
  {
    var init := occupied[..|occupied| - 1];
    if row < Occupied(init) {
      ActualRowInside(init, row);
      var i :| 0 <= i < |init| && Occupied(init[..i]) == row;
      assert occupied[..i] == init[..i];
    } else {
      assert occupied[..|occupied| - 1] == init;
    }
  }

  class EnvelopeFormWidget {
    var rows: seq<Row>
    var maxVisibleRecipients: int
    var sliderMaximum: int
    var sliderVisible: bool

    /** The slider reaches over the rows that do not fit and shows exactly
      when there are such rows. */
    predicate Valid()
      reads this
    {
      maxVisibleRecipients >= MinMaxVisibleRecipients &&
      sliderMaximum == SliderMaximum(|rows|, maxVisibleRecipients) &&
      sliderVisible == (sliderMaximum > 0)
    }

    constructor ()
      ensures rows == [] && maxVisibleRecipients == MinMaxVisibleRecipients
      ensures !sliderVisible && Valid()
    {
      rows := [];
      maxVisibleRecipients := MinMaxVisibleRecipients;
      sliderMaximum := 0;
      sliderVisible := false;
    }

    /** Inserts a row at `position` and resizes the slider. */
    method AddRecipient(position: int, kind: RecipientKind, address: string)
      requires 0 <= position <= |rows|
      requires Valid()
      modifies this
      ensures rows == old(rows)[..position] + [Row(kind, address)] + old(rows)[position..]
      ensures maxVisibleRecipients == old(maxVisibleRecipients)
      ensures Valid()
    {
      rows := rows[..position] + [Row(kind, address)] + rows[position..];
      sliderMaximum := SliderMaximum(|rows|, maxVisibleRecipients);
      sliderVisible := sliderMaximum > 0;
    }

    /** Removes the row at `pos` and resizes the slider. */
    method RemoveRecipient(pos: int)
      requires 0 <= pos < |rows|
      requires Valid()
      modifies this
      ensures rows == old(rows)[..pos] + old(rows)[pos + 1..]
      ensures maxVisibleRecipients == old(maxVisibleRecipients)
      ensures Valid()
    {
      rows := rows[..pos] + rows[pos + 1..];
      sliderMaximum := SliderMaximum(|rows|, maxVisibleRecipients);
      sliderVisible := sliderMaximum > 0;
    }

    /** Keeps one empty row at hand: removes every empty row after the
      first and adds one at the end when there is none. A row is looked at
      again after a removal, so no empty duplicate is skipped. */
    method UpdateRecipientList() returns (outcome: Outcome<FormFailure>)
      requires Valid()
      modifies this
      ensures Valid() && maxVisibleRecipients == old(maxVisibleRecipients)
      ensures Updated(old(rows)).Ok? ==> rows == Updated(old(rows)).value && outcome == Pass
      ensures Updated(old(rows)).Err? ==> rows == old(rows) && outcome == Fail(Updated(old(rows)).error)
    {
      ghost var before := rows;
      var haveEmpty := false;
      var i := 0;
      while i < |rows|
        invariant 0 <= i <= |rows|
        invariant Valid() && maxVisibleRecipients == old(maxVisibleRecipients)
        invariant rows[..i] + KeepFirstEmpty(rows[i..], haveEmpty) == KeepFirstEmpty(before, false)
        invariant (haveEmpty || Empties(rows[i..]) > 0) == (Empties(before) > 0)
        decreases |rows| - i
      {
        SweepStep(rows, i, haveEmpty);
        if rows[i].text == [] && haveEmpty {
          ghost var previous := rows;
          RemoveRecipient(i);
          assert rows[..i] == previous[..i] && rows[i..] == previous[i + 1..];
        } else {
          haveEmpty := haveEmpty || rows[i].text == [];
          i := i + 1;
        }
      }
      SweepDone(before, rows, i, haveEmpty);
      if !haveEmpty {
        var kind := To;
        if rows != [] {
          var next := NextRowKind(rows[|rows| - 1].kind);
          if next.Err? {
            return Fail(next.error);
          }
          kind := next.value;
        }
        AddRecipient(|rows|, kind, "");
      }
      outcome := Pass;
    }

    /** Appends the recipients of the filled rows to `results`, stopping at
      the first row that does not parse. */
    method ParseRecipients(results: seq<Recipient>, parse: string -> Option<MailAddress>)
      returns (out: seq<Recipient>, outcome: Outcome<FormFailure>)
      ensures out == results + Parsed(rows, parse).0 && outcome == Parsed(rows, parse).1
    {
      out := results;
      ghost var found: seq<Recipient> := [];
      var i := 0;
      assert rows[0..] == rows;
      assert found + Parsed(rows, parse).0 == Parsed(rows, parse).0;
      while i < |rows|
        invariant 0 <= i <= |rows|
        invariant out == results + found
        invariant Parsed(rows, parse) == (found + Parsed(rows[i..], parse).0, Parsed(rows[i..], parse).1)
      {
        assert rows[i..][1..] == rows[i + 1..];
        var text := rows[i].text;
        if text != [] {
          var addr := parse(text);
          if addr.None? {
            return out, Fail(Unparseable(text));
          }
          var r := Recipient(rows[i].kind, addr.value);
          assert Parsed(rows[i..], parse) == ([r] + Parsed(rows[i + 1..], parse).0, Parsed(rows[i + 1..], parse).1);
          assert found + ([r] + Parsed(rows[i + 1..], parse).0) == (found + [r]) + Parsed(rows[i + 1..], parse).0;
          out := out + [r];
          found := found + [r];
        } else {
          assert Parsed(rows[i..], parse) == Parsed(rows[i + 1..], parse);
        }
        i := i + 1;
      }
      return out, Pass;
    }
  }
}
