/** The transparency procedure of section 4.5.2 of RFC 5321 as the client
    applies it to the message body before DATA: a period is prepended to
    every line that starts with one, so that no line of the body can be
    taken for the terminating "." line. */
module DotStuffing {

  /** Every occurrence of "\n." replaced by "\n..", scanning from the left
      (the occurrences cannot overlap). */
  function DoubleDotsAfterNewline(s: string): (r: string)
    ensures |s| > 0 ==> |r| > 0 && r[0] == s[0]
    ensures |s| == 0 ==> r == ""
    decreases |s|
  {
    if |s| >= 2 && s[0] == '\n' && s[1] == '.' then "\n.." + DoubleDotsAfterNewline(s[2..])
    else if |s| > 0 then [s[0]] + DoubleDotsAfterNewline(s[1..])
    else ""
  }

  /** The body as the client stuffs it: a period before a leading period,
      then every period that starts a later line doubled. */
  function Stuff(data: string): (stuffed: string)
  {
    DoubleDotsAfterNewline(if |data| > 0 && data[0] == '.' then "." + data else data)
  }

  /** The receiver's side of the procedure: "\n.." becomes "\n." again. */
  function HalveDotsAfterNewline(t: string): string
    decreases |t|
  {
    if |t| >= 3 && t[0] == '\n' && t[1] == '.' && t[2] == '.' then "\n." + HalveDotsAfterNewline(t[3..])
    else if |t| > 0 then [t[0]] + HalveDotsAfterNewline(t[1..])
    else ""
  }

  /** Removes the period that stuffing added at the start of each line. */
  function Unstuff(t: string): string
  {
    if |t| >= 2 && t[0] == '.' && t[1] == '.' then HalveDotsAfterNewline(t[1..]) else HalveDotsAfterNewline(t)
  }

  lemma {:induction false} HalveDoubleInverse(s: string)
    ensures HalveDotsAfterNewline(DoubleDotsAfterNewline(s)) == s
    decreases |s|
  {
    if |s| >= 2 && s[0] == '\n' && s[1] == '.' {
      HalveDoubleInverse(s[2..]);
      HalveDoubledDot(s);
    } else if |s| > 0 {
      HalveDoubleInverse(s[1..]);
      HalveCopiedChar(s);
    }
  }

  /** A line that starts with a period: the doubled period is halved again. */
  lemma HalveDoubledDot(s: string)
    requires |s| >= 2 && s[0] == '\n' && s[1] == '.'
    requires HalveDotsAfterNewline(DoubleDotsAfterNewline(s[2..])) == s[2..]
    ensures HalveDotsAfterNewline(DoubleDotsAfterNewline(s)) == s
  {
    var rest := DoubleDotsAfterNewline(s[2..]);
    assert DoubleDotsAfterNewline(s) == "\n.." + rest;
    HalveDoubledPeriod(rest);
    assert s == "\n." + s[2..];
  }

  /** Halving turns a leading "\n.." back into "\n.". */
  lemma HalveDoubledPeriod(rest: string)
    ensures HalveDotsAfterNewline("\n.." + rest) == "\n." + HalveDotsAfterNewline(rest)
  {
    var t := "\n.." + rest;
    assert t[0] == '\n' && t[1] == '.' && t[2] == '.' && t[3..] == rest;
  }

  /** Any other character is copied by doubling and by halving. */
  lemma HalveCopiedChar(s: string)
    requires |s| > 0 && !(|s| >= 2 && s[0] == '\n' && s[1] == '.')
    requires HalveDotsAfterNewline(DoubleDotsAfterNewline(s[1..])) == s[1..]
    ensures HalveDotsAfterNewline(DoubleDotsAfterNewline(s)) == s
  {
    var rest := DoubleDotsAfterNewline(s[1..]);
    var t := [s[0]] + rest;
    assert DoubleDotsAfterNewline(s) == t;
    assert t[0] == s[0] && t[1..] == rest;
    if |s| >= 2 {
      assert rest[0] == s[1];
    }
    assert HalveDotsAfterNewline(t) == [s[0]] + s[1..];
    assert s == [s[0]] + s[1..];
  }

  /** The receiver recovers exactly the body the client stuffed. */
  lemma {:induction false} UnstuffStuff(data: string)
    ensures Unstuff(Stuff(data)) == data
  {
    if |data| > 0 && data[0] == '.' {
      var t := Stuff(data);
      var d := DoubleDotsAfterNewline(data);
      assert ("." + data)[1..] == data;
      assert t == "." + d;
      assert t[1..] == d;
      HalveDoubleInverse(data);
    } else {
      HalveDoubleInverse(data);
    }
  }

  /** Every period that starts a line other than the first is followed by
      another period. */
  predicate LaterLinesDoubled(t: string)
  {
    forall i :: 0 < i < |t| && t[i - 1] == '\n' && t[i] == '.' ==> i + 1 < |t| && t[i + 1] == '.'
  }

  /** After doubling, a period that starts a line other than the first is
      followed by another period. */
  lemma {:induction false} DoubledLines(s: string)
    ensures LaterLinesDoubled(DoubleDotsAfterNewline(s))
    decreases |s|
  {
    var t := DoubleDotsAfterNewline(s);
    if |s| >= 2 && s[0] == '\n' && s[1] == '.' {
      var rest := DoubleDotsAfterNewline(s[2..]);
      DoubledLines(s[2..]);
      assert t == "\n.." + rest;
      forall i | 0 < i < |t| && t[i - 1] == '\n' && t[i] == '.'
        ensures i + 1 < |t| && t[i + 1] == '.'
      {
        assert t[0] == '\n' && t[1] == '.' && t[2] == '.';
        if i >= 4 {
          var j := i - 3;
          assert t[i - 1] == rest[j - 1] && t[i] == rest[j];
          assert LaterLinesDoubled(rest);
          assert t[i + 1] == rest[j + 1];
        }
      }
    } else if |s| > 0 {
      var rest := DoubleDotsAfterNewline(s[1..]);
      DoubledLines(s[1..]);
      assert t == [s[0]] + rest;
      forall i | 0 < i < |t| && t[i - 1] == '\n' && t[i] == '.'
        ensures i + 1 < |t| && t[i + 1] == '.'
      {
        if i >= 2 {
          var j := i - 1;
          assert t[i - 1] == rest[j - 1] && t[i] == rest[j];
          assert LaterLinesDoubled(rest);
          assert t[i + 1] == rest[j + 1];
        }
      }
    }
  }

  /** In the stuffed body every line that starts with a period starts with
      two, so no line is a lone "." that would end the mail early. */
  lemma NoLineIsALoneDot(data: string)
    ensures var t := Stuff(data);
      forall i :: 0 <= i < |t| && (i == 0 || t[i - 1] == '\n') && t[i] == '.' ==>
        i + 1 < |t| && t[i + 1] == '.'
  {
    var prefixed := if |data| > 0 && data[0] == '.' then "." + data else data;
    DoubledLines(prefixed);
    var t := Stuff(data);
    if |t| > 0 && t[0] == '.' {
      assert prefixed[0] == '.';
      assert |data| > 0 && data[0] == '.';
      assert prefixed == "." + data;
      assert |prefixed| >= 2 && prefixed[1] == '.';
      DoubleDotsStart(prefixed);
    }
  }

  /** Doubling does not touch a start that is not a newline. */
  lemma DoubleDotsStart(s: string)
    requires |s| >= 2 && s[0] != '\n'
    ensures DoubleDotsAfterNewline(s)[1] == s[1]
  {
  }

  /** Doubling leaves a text alone when no period follows a newline. */
  lemma {:induction false} NoDoubling(s: string)
    requires forall i :: 0 < i < |s| && s[i - 1] == '\n' ==> s[i] != '.'
    ensures DoubleDotsAfterNewline(s) == s
    decreases |s|
  {
    if |s| > 0 {
      assert forall i :: 0 < i < |s| - 1 ==> s[1..][i - 1] == s[i] && s[1..][i] == s[i + 1];
      NoDoubling(s[1..]);
      assert s == [s[0]] + s[1..];
    }
  }

  /** A body in which no line starts with a period is sent unchanged. */
  lemma NothingToStuff(data: string)
    requires |data| == 0 || data[0] != '.'
    requires forall i :: 0 < i < |data| && data[i - 1] == '\n' ==> data[i] != '.'
    ensures Stuff(data) == data
  {
    NoDoubling(data);
  }
}
