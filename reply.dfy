/** Parsing of one line of an SMTP server reply (section 4.2 of RFC 5321):
    a status code, '-' for a line that more lines follow or ' ' for the last
    line, optionally an enhanced status code "class.subject.detail "
    (RFC 3463), then free text, then an end of line.

    The source matches the line against two regular expressions,
    `^(\d+)-((\d+).(\d+).(\d+) )?(.*)\n` and the same with ' ' instead of
    '-'. The model states the language they accept and the captures a
    backtracking matcher picks: `.` stands for any character, the optional
    group is taken whenever it can be, with the longest first number, then the
    longest second number. */
module Reply {
  import opened Outcomes
  import opened Text

  datatype EnhancedStatus = EnhancedStatus(sclass: int, subject: int, detail: int)

  datatype Response = Response(status: int, enhanced: Option<EnhancedStatus>, text: string, isMultiline: bool)

  datatype ParseError = MalformedReply

  /** The length of the third number of an enhanced status code at the start
      of `s`: the whole digit run there, which must be followed by a space;
      0 when there is none. */
  function ThirdLength(s: string): (c: nat)
    ensures c > 0 ==> c < |s| && AllDigits(s[..c]) && s[c] == ' '
  {
    var c := DigitRun(s);
    if 1 <= c < |s| && s[c] == ' ' then c else 0
  }

  /** `s` starts with an enhanced status code whose first number is the `a`
      digits `s[..a]` and whose second number is the `b` digits after the
      first separator; each separator is any one character and the third
      number is followed by a space. */
  predicate ShapeAt(s: string, a: nat, b: nat)
  {
    1 <= a <= DigitRun(s) && a < |s| &&
    1 <= b <= DigitRun(s[a + 1..]) && a + b + 2 <= |s| &&
    ThirdLength(s[a + b + 2..]) > 0
  }

  /** `s` starts with some enhanced status code. */
  ghost predicate HasGroup(s: string)
  {
    exists a: nat, b: nat :: ShapeAt(s, a, b)
  }

  /** The preference order of the matcher: a longer first number wins, then a
      longer second number. */
  predicate Before(a: nat, b: nat, a': nat, b': nat)
  {
    a' < a || (a' == a && b' <= b)
  }

  /** Tries second-number lengths from `b` down to 1. */
  function SecondRun(s: string, a: nat, b: nat): Option<nat>
    decreases b
  {
    if b == 0 then None
    else if ShapeAt(s, a, b) then Some(b)
    else SecondRun(s, a, b - 1)
  }

  /** The second number found is the longest one up to `b`. */
  lemma {:induction false} SecondRunMeans(s: string, a: nat, b: nat)
    ensures var r := SecondRun(s, a, b);
      (r.Some? ==> r.value <= b && ShapeAt(s, a, r.value)) &&
      (forall b': nat :: b' <= b && ShapeAt(s, a, b') ==> r.Some? && b' <= r.value)
    decreases b
  {
    if b > 0 && !ShapeAt(s, a, b) {
      SecondRunMeans(s, a, b - 1);
    }
  }

  /** Tries first-number lengths from `a` down to 1, each with the longest
      second number that fits. */
  function FirstRun(s: string, a: nat): Option<(nat, nat)>
    decreases a
  {
    if a == 0 then None
    else
      match SecondRun(s, a, |s|)
      case Some(b) => Some((a, b))
      case None => FirstRun(s, a - 1)
  }

  /** The code found is there, and comes first in preference order among
      those whose first number is at most `a` digits long. */
  lemma {:induction false} FirstRunMeans(s: string, a: nat)
    ensures var r := FirstRun(s, a);
      (r.Some? ==> r.value.0 <= a && ShapeAt(s, r.value.0, r.value.1)) &&
      (forall a': nat, b': nat :: a' <= a && ShapeAt(s, a', b') ==> r.Some? && Before(r.value.0, r.value.1, a', b'))
    decreases a
  {
    if a > 0 {
      SecondRunMeans(s, a, |s|);
      if SecondRun(s, a, |s|).None? {
        FirstRunMeans(s, a - 1);
      }
    }
  }

  /** The enhanced status code that `ShapeAt(s, a, b)` describes. */
  function Code(s: string, a: nat, b: nat): EnhancedStatus
    requires ShapeAt(s, a, b)
  {
    var c := ThirdLength(s[a + b + 2..]);
    EnhancedStatus(ToInt(s[..a]), ToInt(s[a + 1..][..b]), ToInt(s[a + b + 2..][..c]))
  }

  /** The number of characters the code of `ShapeAt(s, a, b)` covers, its
      final space included. */
  function Covered(s: string, a: nat, b: nat): (n: nat)
    requires ShapeAt(s, a, b)
    ensures 1 <= n <= |s| && s[n - 1] == ' '
  {
    a + b + ThirdLength(s[a + b + 2..]) + 3
  }

  /** The line has the reply shape: a digit run, a '-' or ' ', and an end of
      line as its last character. */
  predicate WellFormed(line: string)
  {
    var n := DigitRun(line);
    1 <= n && n + 2 <= |line| && line[n] in {'-', ' '} && line[|line| - 1] == '\n'
  }

  /** The matcher takes the code described by `ShapeAt(s, a, b)`: it is
      there, and every other code there comes after it in preference order. */
  ghost predicate Taken(s: string, a: nat, b: nat)
  {
    ShapeAt(s, a, b) && forall a': nat, b': nat :: ShapeAt(s, a', b') ==> Before(a, b, a', b')
  }

  /** What follows the status code and its separator: the enhanced status
      code the matcher takes, if any, and the text up to the final end of
      line. */
  function AfterStatus(rest: string): (Option<EnhancedStatus>, string)
    requires |rest| >= 1 && rest[|rest| - 1] == '\n'
  {
    var g := FirstRun(rest, |rest|);
    if g.None? then (None, rest[..|rest| - 1])
    else
      FirstRunMeans(rest, |rest|);
      var (a, b) := g.value;
      (Some(Code(rest, a, b)), rest[Covered(rest, a, b)..|rest| - 1])
  }

  /** A code is captured exactly when one is there; it is then the one the
      matcher takes, and the text starts after its space. Without one the
      text is the whole rest of the line. */
  lemma AfterStatusMeans(rest: string)
    requires |rest| >= 1 && rest[|rest| - 1] == '\n'
    ensures var r := AfterStatus(rest);
      (r.0.Some? <==> HasGroup(rest)) &&
      (r.0.None? ==> r.1 == rest[..|rest| - 1]) &&
      (r.0.Some? ==> exists a: nat, b: nat :: (Taken(rest, a, b) && Covered(rest, a, b) < |rest| &&
        r.0.value == Code(rest, a, b) && r.1 == rest[Covered(rest, a, b)..|rest| - 1]))
  {
    var g := FirstRun(rest, |rest|);
    FirstRunMeans(rest, |rest|);
    if g.Some? {
      var (a, b) := g.value;
      assert Taken(rest, a, b);
    }
  }

  /** One line of a server reply, or an error for a line that neither
      expression matches. */
  function ParseLine(line: string): (r: Result<Response, ParseError>)
    ensures r.Ok? <==> WellFormed(line)
    ensures r.Ok? ==> var n := DigitRun(line);
      r.value.status == ToInt(line[..n]) &&
      r.value.isMultiline == (line[n] == '-') &&
      (r.value.enhanced, r.value.text) == AfterStatus(line[n + 1..])
  {
    if !WellFormed(line) then Err(MalformedReply)
    else
      var n := DigitRun(line);
      var (enhanced, text) := AfterStatus(line[n + 1..]);
      Ok(Response(ToInt(line[..n]), enhanced, text, line[n] == '-'))
  }

  /** The two expressions differ only in the character after the status: a
      line ending a reply is never taken for one that more lines follow. */
  lemma LastLineIsNotMultiline(status: string, text: string)
    requires 1 <= |status| && AllDigits(status)
    ensures var r := ParseLine(status + " " + text + "\n");
      r.Ok? && !r.value.isMultiline && r.value.status == ToInt(status)
  {
    var line := status + " " + text + "\n";
    DigitRunIs(line, |status|);
    assert line[..|status|] == status;
  }

  /** A continuation line parses as one that more lines follow. */
  lemma ContinuationIsMultiline(status: string, text: string)
    requires 1 <= |status| && AllDigits(status)
    ensures var r := ParseLine(status + "-" + text + "\n");
      r.Ok? && r.value.isMultiline && r.value.status == ToInt(status)
  {
    var line := status + "-" + text + "\n";
    DigitRunIs(line, |status|);
    assert line[..|status|] == status;
  }

  /** A line without a leading digit, without the separator or without a
      final end of line is refused. */
  lemma MalformedLines(line: string)
    requires |line| == 0 || !IsDigit(line[0]) || line[|line| - 1] != '\n'
    ensures ParseLine(line).Err?
  {
  }

  /** A code the matcher prefers to the one of the longest digit runs is
      that one. */
  lemma TakenIsLongest(s: string, a: nat, b: nat, a': nat, b': nat)
    requires DigitRun(s) == a && a < |s| && DigitRun(s[a + 1..]) == b
    requires ShapeAt(s, a, b) && Taken(s, a', b')
    ensures a' == a && b' == b
  {
  }

  /** When the longest digit runs form a code, the matcher takes that code. */
  lemma LongestRunsTaken(s: string, a: nat, b: nat)
    requires |s| >= 1 && s[|s| - 1] == '\n'
    requires a < |s| && DigitRun(s) == a && DigitRun(s[a + 1..]) == b
    requires ShapeAt(s, a, b)
    ensures AfterStatus(s) == (Some(Code(s, a, b)), s[Covered(s, a, b)..|s| - 1])
  {
    assert HasGroup(s);
    AfterStatusMeans(s);
    var r := AfterStatus(s);
    var a', b' :| Taken(s, a', b') && r.0.value == Code(s, a', b') &&
      r.1 == s[Covered(s, a', b')..|s| - 1];
    TakenIsLongest(s, a, b, a', b');
  }

  /** The numbers of a code and the text it covers, given the length of its
      third number. */
  lemma CodeParts(s: string, a: nat, b: nat, c: nat)
    requires ShapeAt(s, a, b) && ThirdLength(s[a + b + 2..]) == c
    ensures Code(s, a, b) == EnhancedStatus(ToInt(s[..a]), ToInt(s[a + 1..][..b]), ToInt(s[a + b + 2..][..c]))
    ensures Covered(s, a, b) == a + b + c + 3
  {
  }

  /** Three whole digit runs with a space after the third describe the
      code of the longest runs. */
  lemma RunsShape(s: string, a: nat, b: nat, c: nat)
    requires 1 <= a < |s| && AllDigits(s[..a]) && !IsDigit(s[a])
    requires 1 <= b && a + 1 + b < |s| && AllDigits(s[a + 1..][..b]) && !IsDigit(s[a + 1 + b])
    requires 1 <= c && a + b + 2 + c < |s| && AllDigits(s[a + b + 2..][..c]) && s[a + b + 2 + c] == ' '
    ensures DigitRun(s) == a && DigitRun(s[a + 1..]) == b && ThirdLength(s[a + b + 2..]) == c
    ensures ShapeAt(s, a, b)
  {
    var t, u := s[a + 1..], s[a + b + 2..];
    assert t[b] == s[a + 1 + b] && u[c] == s[a + b + 2 + c];
    DigitRunIs(s, a);
    DigitRunIs(t, b);
    DigitRunIs(u, c);
  }

  /** The code of the longest runs, with a third number of `c` digits, is
      the one taken, and the text follows its space. */
  lemma ShapeTaken(s: string, a: nat, b: nat, c: nat)
    requires |s| >= 1 && s[|s| - 1] == '\n' && a + b + c + 3 < |s|
    requires a < |s| && DigitRun(s) == a && DigitRun(s[a + 1..]) == b
    requires ShapeAt(s, a, b) && ThirdLength(s[a + b + 2..]) == c
    ensures AfterStatus(s) ==
      (Some(EnhancedStatus(ToInt(s[..a]), ToInt(s[a + 1..][..b]), ToInt(s[a + b + 2..][..c]))),
       s[a + b + c + 3..|s| - 1])
  {
    LongestRunsTaken(s, a, b);
    CodeParts(s, a, b, c);
    Rewritten(AfterStatus(s), s, Code(s, a, b), Covered(s, a, b), a + b + c + 3);
  }

  lemma Rewritten(r: (Option<EnhancedStatus>, string), s: string, e: EnhancedStatus, n: nat, m: nat)
    requires n == m < |s| && r == (Some(e), s[n..|s| - 1])
    ensures r == (Some(e), s[m..|s| - 1])
  {
  }

  /** A code whose numbers are whole digit runs is taken as written. */
  lemma RunsTaken(s: string, a: nat, b: nat, c: nat)
    requires |s| >= 1 && s[|s| - 1] == '\n'
    requires 1 <= a < |s| && AllDigits(s[..a]) && !IsDigit(s[a])
    requires 1 <= b && a + 1 + b < |s| && AllDigits(s[a + 1..][..b]) && !IsDigit(s[a + 1 + b])
    requires 1 <= c && a + b + 2 + c < |s| && AllDigits(s[a + b + 2..][..c]) && s[a + b + 2 + c] == ' '
    ensures AfterStatus(s) ==
      (Some(EnhancedStatus(ToInt(s[..a]), ToInt(s[a + 1..][..b]), ToInt(s[a + b + 2..][..c]))),
       s[a + b + c + 3..|s| - 1])
  {
    RunsShape(s, a, b, c);
    ShapeTaken(s, a, b, c);
  }

  /** A code class.subject.detail with separators that are not digits is
      taken exactly as written, and the text is what follows its space. */
  lemma CodeTakenExactly(x: string, y: string, z: string, d1: char, d2: char, text: string)
    requires 1 <= |x| && AllDigits(x) && 1 <= |y| && AllDigits(y) && 1 <= |z| && AllDigits(z)
    requires !IsDigit(d1) && !IsDigit(d2)
    ensures AfterStatus(x + [d1] + y + [d2] + z + " " + text + "\n") ==
      (Some(EnhancedStatus(ToInt(x), ToInt(y), ToInt(z))), text)
  {
    var a, b, c := |x|, |y|, |z|;
    var u := z + " " + text + "\n";
    var t := y + [d2] + u;
    var rest := x + [d1] + t;
    assert rest == x + [d1] + y + [d2] + z + " " + text + "\n";
    assert rest[..a] == x && rest[a + 1..] == t && rest[a] == d1;
    assert t[..b] == y && t[b + 1..] == u && t[b] == d2;
    assert rest[a + b + 2..] == u;
    assert u[..c] == z && u[c] == ' ';
    assert rest[a + b + c + 3..|rest| - 1] == text;
    RunsTaken(rest, a, b, c);
  }

  /** A reply line carrying an enhanced status code yields that code and the
      text after it. */
  lemma EnhancedCodeCaptured(status: string, x: string, y: string, z: string, d1: char, d2: char, text: string)
    requires 1 <= |status| && AllDigits(status)
    requires 1 <= |x| && AllDigits(x) && 1 <= |y| && AllDigits(y) && 1 <= |z| && AllDigits(z)
    requires !IsDigit(d1) && !IsDigit(d2)
    ensures var r := ParseLine(status + " " + x + [d1] + y + [d2] + z + " " + text + "\n");
      r.Ok? && r.value.enhanced == Some(EnhancedStatus(ToInt(x), ToInt(y), ToInt(z))) &&
      r.value.text == text
  {
    var rest := x + [d1] + y + [d2] + z + " " + text + "\n";
    assert status + " " + x + [d1] + y + [d2] + z + " " + text + "\n" == status + [' '] + rest;
    StatusThenRest(status, ' ', rest);
    CodeTakenExactly(x, y, z, d1, d2, text);
  }

  /** A status, its separator and the rest of a line parse to that status
      and to what follows the separator. */
  lemma StatusThenRest(status: string, sep: char, rest: string)
    requires 1 <= |status| && AllDigits(status) && sep in {'-', ' '}
    requires |rest| >= 1 && rest[|rest| - 1] == '\n'
    ensures ParseLine(status + [sep] + rest) ==
      Ok(Response(ToInt(status), AfterStatus(rest).0, AfterStatus(rest).1, sep == '-'))
  {
    var line := status + [sep] + rest;
    DigitRunIs(line, |status|);
    assert line[..|status|] == status;
    assert line[|status| + 1..] == rest;
  }

  /** Over a connection that ends lines with CR LF, the carriage return is
      kept as the last character of the text. */
  lemma CarriageReturnKept(status: string, text: string)
    requires 1 <= |status| && AllDigits(status)
    requires |text| == 0 || !IsDigit(text[0])
    ensures var r := ParseLine(status + "-" + text + "\r\n");
      r.Ok? && r.value.text == text + "\r"
  {
    var rest := text + "\r\n";
    assert status + "-" + text + "\r\n" == status + ['-'] + rest;
    StatusThenRest(status, '-', rest);
    assert DigitRun(rest) == 0;
    FirstRunMeans(rest, |rest|);
    assert FirstRun(rest, |rest|).None?;
    assert rest[..|rest| - 1] == text + "\r";
    assert AfterStatus(rest) == (None, text + "\r");
  }

  /** Over a connection that ends lines with CR LF, every reply line keeps
      the carriage return as the last character of its text, with or
      without an enhanced status code, continuation or last line alike. */
  lemma CarriageReturnEndsText(line: string)
    requires WellFormed(line) && line[|line| - 2] == '\r'
    ensures var r := ParseLine(line);
      r.Ok? && |r.value.text| >= 1 && r.value.text[|r.value.text| - 1] == '\r'
  {
    var n := DigitRun(line);
    var rest := line[n + 1..];
    assert rest[|rest| - 1] == '\n' && rest[|rest| - 2] == '\r';
    TextEndsInCarriageReturn(rest);
  }

  /** The code ends with a space, so it never takes the carriage return
      before the final end of line. */
  lemma TextEndsInCarriageReturn(rest: string)
    requires |rest| >= 2 && rest[|rest| - 1] == '\n' && rest[|rest| - 2] == '\r'
    ensures var t := AfterStatus(rest).1; |t| >= 1 && t[|t| - 1] == '\r'
  {
    AfterStatusMeans(rest);
    var r := AfterStatus(rest);
    if r.0.Some? {
      var a: nat, b: nat :| Taken(rest, a, b) && Covered(rest, a, b) < |rest| &&
        r.1 == rest[Covered(rest, a, b)..|rest| - 1];
      assert rest[Covered(rest, a, b) - 1] == ' ';
    }
  }
}
