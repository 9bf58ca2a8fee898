/** The service extensions an SMTP server announces in the lines of its
    reply to EHLO (section 4.1.1.1 of RFC 5321), one keyword per line, and
    the authentication mechanisms listed on its AUTH line (RFC 4954). */
module Capabilities {
  import opened Text

  datatype Extension = StartTls | Size | Pipelining | EightBitMime | Dsn | Auth | EnhancedStatusCodes

  datatype AuthMode = Plain | Login

  /** The two flag sets the client accumulates while it reads the EHLO reply. */
  datatype Capabilities = Capabilities(extensions: set<Extension>, authModes: set<AuthMode>)

  const NoCapabilities := Capabilities({}, {})

  /** The lower-case name of a mechanism. */
  function ModeName(mode: AuthMode): string
  {
    match mode
    case Plain => "plain"
    case Login => "login"
  }

  /** `word` names the mechanism, in any letter case. */
  predicate Names(word: string, mode: AuthMode)
  {
    Lower(word) == ModeName(mode)
  }

  /** The mechanisms one word names. */
  function ModesOfWord(word: string): set<AuthMode>
  {
    (if Names(word, Plain) then {Plain} else {}) + (if Names(word, Login) then {Login} else {})
  }

  /** The mechanisms named among `words`. */
  function AuthModesIn(words: seq<string>): set<AuthMode>
    decreases |words|
  {
    if words == [] then {} else ModesOfWord(words[0]) + AuthModesIn(words[1..])
  }

  /** A mechanism is among those of `words` exactly when one of the words
      names it. */
  lemma {:induction false} AuthModesInMeans(words: seq<string>)
    ensures forall mode :: mode in AuthModesIn(words) <==> exists i :: 0 <= i < |words| && Names(words[i], mode)
    decreases |words|
  {
    if words != [] {
      AuthModesInMeans(words[1..]);
      assert forall i :: 1 <= i < |words| ==> words[i] == words[1..][i - 1];
      forall mode, i | 1 <= i < |words| && Names(words[i], mode)
        ensures exists j :: 0 <= j < |words[1..]| && Names(words[1..][j], mode)
      {
        assert Names(words[1..][i - 1], mode);
      }
    }
  }

  /** Adding the mechanisms of word `i` to those of the words before it. */
  lemma AddWord(acc: set<AuthMode>, base: set<AuthMode>, words: seq<string>, i: nat)
    requires i < |words|
    requires acc == base + AuthModesIn(words[..i])
    ensures acc + ModesOfWord(words[i]) == base + AuthModesIn(words[..i + 1])
  {
    AuthModesAppend(words[..i], [words[i]]);
    assert words[..i + 1] == words[..i] + [words[i]];
    assert [words[i]][1..] == [];
  }

  /** What one line of the EHLO reply announces. */
  datatype Announcement = Announces(extension: Extension) | AuthWith(modes: set<AuthMode>) | Nothing

  /** The if-else chain the source runs on one line: the keywords are
      compared with the lower-cased text, the "size" prefix is looked for in
      `sizeSubject`, and the mechanisms are the space-separated words after
      the first five characters of `text`. */
  function Classify(text: string, sizeSubject: string): (a: Announcement)
    ensures a.AuthWith? ==> |text| >= 5 && Lower(text[..5]) == "auth "
    ensures a.AuthWith? ==> a.modes == AuthModesIn(Split(text[5..], ' '))
  {
    var low := Lower(text);
    if low == "pipelining" then Announces(Pipelining)
    else if low == "enhancedstatuscodes" then Announces(EnhancedStatusCodes)
    else if low == "dsn" then Announces(Dsn)
    else if low == "starttls" then Announces(StartTls)
    else if low == "8bitmime" then Announces(EightBitMime)
    else if "size" <= sizeSubject then Announces(Size)
    else if "auth " <= low then
      assert Lower(text[..5]) == low[..5];
      AuthWith(AuthModesIn(Split(text[5..], ' ')))
    else Nothing
  }

  /** A line whose lower-cased text starts with "auth " and that is not
      taken for a SIZE line lists mechanisms. */
  lemma AuthPrefix(text: string, sizeSubject: string)
    requires |text| >= 5 && Lower(text)[..5] == "auth "
    requires !("size" <= sizeSubject)
    ensures Classify(text, sizeSubject) == AuthWith(AuthModesIn(Split(text[5..], ' ')))
  {
    var low := Lower(text);
    assert low[0] == 'a';
    assert "pipelining"[0] != 'a' && "enhancedstatuscodes"[0] != 'a' && "dsn"[0] != 'a' &&
      "starttls"[0] != 'a' && "8bitmime"[0] != 'a';
  }

  /** The flags after an announcement: one more extension, or the AUTH
      extension and the mechanisms listed, or no change. */
  function Apply(caps: Capabilities, a: Announcement): (r: Capabilities)
    ensures caps.extensions <= r.extensions && caps.authModes <= r.authModes
    ensures |r.extensions - caps.extensions| <= 1
    ensures r.authModes != caps.authModes ==> Auth in r.extensions
  {
    match a
    case Announces(e) => Capabilities(caps.extensions + {e}, caps.authModes)
    case AuthWith(modes) => Capabilities(caps.extensions + {Auth}, caps.authModes + modes)
    case Nothing => caps
  }

  /** The source's parsing of one line: the text is matched as it arrives,
      and the "size" prefix is looked for in the text as it is, with its
      letter case. */
  function ParseCapabilitiesAsWritten(caps: Capabilities, text: string): (r: Capabilities)
    ensures caps.extensions <= r.extensions && caps.authModes <= r.authModes
  {
    Apply(caps, Classify(text, text))
  }

  /** The text without the carriage return that ends a line on the wire. */
  function StripCr(text: string): (r: string)
    ensures '\r' !in text ==> r == text
    ensures text == r + "\r" || text == r
  {
    if |text| > 0 && text[|text| - 1] == '\r' then text[..|text| - 1] else text
  }

  /** The parsing the client evidently intends: the carriage return that
      ends the line is not part of the keyword, and "size" is recognised in
      any letter case like every other keyword. */
  function ParseCapabilities(caps: Capabilities, text: string): (r: Capabilities)
    ensures caps.extensions <= r.extensions && caps.authModes <= r.authModes
  {
    var t := StripCr(text);
    Apply(caps, Classify(t, Lower(t)))
  }

  /** What one line announces, whatever was announced before. */
  function Announced(text: string): Capabilities
  {
    ParseCapabilities(NoCapabilities, text)
  }

  function Union(c: Capabilities, d: Capabilities): Capabilities
  {
    Capabilities(c.extensions + d.extensions, c.authModes + d.authModes)
  }

  lemma UnionAssociates(c: Capabilities, d: Capabilities, e: Capabilities)
    ensures Union(Union(c, d), e) == Union(c, Union(d, e))
  {
  }

  lemma UnionSwap(c: Capabilities, d: Capabilities, e: Capabilities)
    ensures Union(Union(c, d), e) == Union(Union(c, e), d)
  {
  }

  /** A line adds what it announces and nothing else. */
  lemma AddsAnnounced(caps: Capabilities, text: string)
    ensures ParseCapabilities(caps, text) == Union(caps, Announced(text))
  {
  }

  /** The order of the lines does not matter. */
  lemma OrderIrrelevant(caps: Capabilities, t1: string, t2: string)
    ensures ParseCapabilities(ParseCapabilities(caps, t1), t2) ==
            ParseCapabilities(ParseCapabilities(caps, t2), t1)
  {
    var a1, a2 := Announced(t1), Announced(t2);
    AddsAnnounced(caps, t1);
    AddsAnnounced(caps, t2);
    AddsAnnounced(Union(caps, a1), t2);
    AddsAnnounced(Union(caps, a2), t1);
    UnionSwap(caps, a1, a2);
  }

  /** Reading the same line twice changes nothing the second time. */
  lemma Idempotent(caps: Capabilities, text: string)
    ensures ParseCapabilities(ParseCapabilities(caps, text), text) == ParseCapabilities(caps, text)
  {
    AddsAnnounced(caps, text);
    AddsAnnounced(ParseCapabilities(caps, text), text);
  }

  /** The source's parsing, too, adds what a line announces whatever was
      announced before. */
  lemma AddsAnnouncedAsWritten(caps: Capabilities, text: string)
    ensures ParseCapabilitiesAsWritten(caps, text) ==
      Union(caps, ParseCapabilitiesAsWritten(NoCapabilities, text))
  {
  }

  /** With the source's parsing the order of the lines does not matter
      either. */
  lemma {:induction false} OrderIrrelevantAsWritten(caps: Capabilities, t1: string, t2: string)
    ensures ParseCapabilitiesAsWritten(ParseCapabilitiesAsWritten(caps, t1), t2) ==
            ParseCapabilitiesAsWritten(ParseCapabilitiesAsWritten(caps, t2), t1)
  {
    var a1, a2 := ParseCapabilitiesAsWritten(NoCapabilities, t1), ParseCapabilitiesAsWritten(NoCapabilities, t2);
    AddsAnnouncedAsWritten(caps, t1);
    AddsAnnouncedAsWritten(caps, t2);
    AddsAnnouncedAsWritten(Union(caps, a1), t2);
    AddsAnnouncedAsWritten(Union(caps, a2), t1);
    UnionSwap(caps, a1, a2);
  }

  /** With the source's parsing a line read twice changes nothing the
      second time. */
  lemma {:induction false} IdempotentAsWritten(caps: Capabilities, text: string)
    ensures ParseCapabilitiesAsWritten(ParseCapabilitiesAsWritten(caps, text), text) ==
            ParseCapabilitiesAsWritten(caps, text)
  {
    AddsAnnouncedAsWritten(caps, text);
    AddsAnnouncedAsWritten(ParseCapabilitiesAsWritten(caps, text), text);
  }

  /** A "size" prefix in the text is one in the lower-cased text. */
  lemma SizePrefixLowered(text: string)
    requires "size" <= text
    ensures "size" <= Lower(text)
  {
    assert text[..4] == "size";
    assert Lower(text)[..4] == "size" by {
      forall i | 0 <= i < 4
        ensures Lower(text)[i] == "size"[i]
      {
        assert text[i] == "size"[i];
      }
    }
  }

  /** On a line without a carriage return whose "size" prefix, if it has
      one, is in lower case, the source's parsing and the corrected one
      agree: what is proved of the corrected parsing on such lines (a
      keyword line, an AUTH line, an unknown keyword) holds of the
      source's. */
  lemma AsWrittenAgrees(caps: Capabilities, text: string)
    requires '\r' !in text
    requires "size" <= Lower(text) ==> "size" <= text
    ensures ParseCapabilitiesAsWritten(caps, text) == ParseCapabilities(caps, text)
  {
    assert StripCr(text) == text;
    if "size" <= text {
      SizePrefixLowered(text);
    }
    assert Classify(text, text) == Classify(text, Lower(text));
  }

  /** The last EHLO line "AUTH PLAIN" as it arrives, with its carriage
      return: the source's parsing sets the AUTH extension but no
      mechanism. */
  lemma AuthPlainCarriageReturnAsWritten(caps: Capabilities, m: string)
    requires m == "PLAIN"
    ensures ParseCapabilitiesAsWritten(caps, "AUTH " + m + "\r") == Capabilities(caps.extensions + {Auth}, caps.authModes)
  {
    AuthLineAsWrittenModes(caps, m);
    LastWordCarriageReturn(m);
    SplitPlain(m);
    assert [m][..0] == [];
  }

  /** The same line read by the corrected parsing sets AUTH and PLAIN. */
  lemma AuthPlainCarriageReturnCorrected(caps: Capabilities, m: string)
    requires m == "PLAIN"
    ensures ParseCapabilities(caps, "AUTH " + m + "\r") == Capabilities(caps.extensions + {Auth}, caps.authModes + {Plain})
  {
    assert StripCr("AUTH " + m + "\r") == "AUTH " + m;
    AuthLine(caps, m);
    SplitPlain(m);
    MechanismWords();
  }

  lemma SplitPlain(m: string)
    requires m == "PLAIN"
    ensures Split(m, ' ') == [m]
  {
    SplitJoin([m], ' ');
    assert Join([m], " ") == m;
  }

  /** Parsing every line of a reply in order. */
  function ParseAll(caps: Capabilities, texts: seq<string>): Capabilities
    decreases |texts|
  {
    if texts == [] then caps else ParseAll(ParseCapabilities(caps, texts[0]), texts[1..])
  }

  /** The flags after a whole reply are the union of what each line
      announces. */
  lemma {:induction false} ParseAllUnion(caps: Capabilities, texts: seq<string>)
    ensures ParseAll(caps, texts) == Union(caps, ParseAll(NoCapabilities, texts))
    decreases |texts|
  {
    if texts != [] {
      var a := Announced(texts[0]);
      var rest := ParseAll(NoCapabilities, texts[1..]);
      AddsAnnounced(caps, texts[0]);
      AddsAnnounced(NoCapabilities, texts[0]);
      ParseAllUnion(Union(caps, a), texts[1..]);
      ParseAllUnion(a, texts[1..]);
      UnionAssociates(caps, a, rest);
    }
  }

  /** Lines that announce nothing leave the flags as they were. */
  lemma UnknownKeyword(caps: Capabilities, text: string)
    requires var t := Lower(StripCr(text));
      t !in {"pipelining", "enhancedstatuscodes", "dsn", "starttls", "8bitmime"} &&
      !("size" <= t) && !("auth " <= t)
    ensures ParseCapabilities(caps, text) == caps
  {
  }

  /** An AUTH line announces authentication and exactly the mechanisms it
      lists. */
  lemma AuthLine(caps: Capabilities, mechanisms: string)
    requires '\r' !in mechanisms
    ensures var r := ParseCapabilities(caps, "AUTH " + mechanisms);
      r.extensions == caps.extensions + {Auth} &&
      r.authModes == caps.authModes + AuthModesIn(Split(mechanisms, ' '))
  {
    var text := "AUTH " + mechanisms;
    assert StripCr(text) == text by {
      if |mechanisms| > 0 {
        assert text[|text| - 1] == mechanisms[|mechanisms| - 1];
      }
    }
    var low := Lower(text);
    assert low[..5] == "auth ";
    assert !("size" <= low) by {
      assert low[0] == 'a';
    }
    assert text[5..] == mechanisms;
    AuthPrefix(text, low);
  }

  /** The lower-case keyword by which a server announces an extension. */
  function Keyword(e: Extension): string
  {
    match e
    case StartTls => "starttls"
    case Size => "size"
    case Pipelining => "pipelining"
    case EightBitMime => "8bitmime"
    case Dsn => "dsn"
    case Auth => "auth"
    case EnhancedStatusCodes => "enhancedstatuscodes"
  }

  /** Lower-cased text that is one of the keywords tested before "size"
      is classified as that keyword. */
  lemma KeywordClassified(t: string, e: Extension)
    requires e !in {Size, Auth}
    requires Lower(t) == Keyword(e)
    ensures Classify(t, Lower(t)) == Announces(e)
  {
    var low := Lower(t);
    match e
    case Pipelining =>
    case EnhancedStatusCodes =>
      assert |low| == 19;
    case Dsn =>
      assert |low| == 3;
    case StartTls =>
      assert |low| == 8;
    case EightBitMime =>
      assert |low| == 8 && low[0] == '8';
  }

  /** A line holding just a keyword, in any letter case and with or without
      the carriage return, announces that extension and nothing else. */
  lemma KeywordLine(caps: Capabilities, text: string, e: Extension)
    requires e !in {Size, Auth}
    requires Lower(StripCr(text)) == Keyword(e)
    ensures ParseCapabilities(caps, text) == Capabilities(caps.extensions + {e}, caps.authModes)
  {
    KeywordClassified(StripCr(text), e);
  }

  /** A line whose lower-cased text starts with "si" is not one of the
      keywords, so a "size" prefix in `sizeSubject` makes it a SIZE line. */
  lemma SizePrefix(text: string, sizeSubject: string)
    requires |text| >= 2 && Lower(text)[0] == 's' && Lower(text)[1] == 'i'
    requires "size" <= sizeSubject
    ensures Classify(text, sizeSubject) == Announces(Size)
  {
    var low := Lower(text);
    assert "pipelining"[0] != 's' && "enhancedstatuscodes"[0] != 's' && "dsn"[0] != 's' &&
      "starttls"[1] != 'i' && "8bitmime"[0] != 's';
  }

  /** A SIZE line, with its limit, announces the extension in any letter
      case. */
  lemma SizeLine(caps: Capabilities, limit: string)
    requires '\r' !in limit
    ensures ParseCapabilities(caps, "SIZE " + limit) == Capabilities(caps.extensions + {Size}, caps.authModes)
  {
    var text := "SIZE " + limit;
    assert StripCr(text) == text by {
      if |limit| > 0 {
        assert text[|text| - 1] == limit[|limit| - 1];
      }
    }
    var low := Lower(text);
    assert low[..4] == "size";
    SizePrefix(text, low);
  }

  /** The source's parsing misses an upper-case SIZE line. */
  lemma SizeLineAsWritten(limit: string)
    ensures ParseCapabilitiesAsWritten(NoCapabilities, "SIZE " + limit) == NoCapabilities
  {
    var text := "SIZE " + limit;
    var low := Lower(text);
    assert low[0] == 's' && low[1] == 'i';
    assert "pipelining"[0] != 's' && "enhancedstatuscodes"[0] != 's' && "dsn"[0] != 's' &&
      "starttls"[1] != 'i' && "8bitmime"[0] != 's' && "auth "[0] != 's';
    assert text[0] == 'S';
  }

  /** With the carriage return left on the line, the source's parsing misses
      a keyword it knows. */
  lemma KeywordLineAsWritten()
    ensures ParseCapabilitiesAsWritten(NoCapabilities, "PIPELINING\r") == NoCapabilities
    ensures ParseCapabilities(NoCapabilities, "PIPELINING\r") == Capabilities({Pipelining}, {})
  {
    var p := "PIPELINING\r";
    var low := Lower(p);
    assert |low| == 11 && low[0] == 'p';
    assert Classify(p, p) == Nothing by {
      assert p[0] == 'P';
    }
    assert StripCr(p) == "PIPELINING";
    PipeliningLowered();
    KeywordLine(NoCapabilities, p, Pipelining);
  }

  lemma PipeliningLowered()
    ensures Lower("PIPELINING") == "pipelining"
  {
    var p := "PIPELINING";
    forall i | 0 <= i < |p|
      ensures LowerChar(p[i]) == "pipelining"[i]
    {
    }
  }

  /** Appending a character that is not the separator extends the last
      part. */
  lemma SplitExtendsLast(m: string, c: char, sep: char)
    requires c != sep
    ensures var ps := Split(m, sep);
      Split(m + [c], sep) == ps[..|ps| - 1] + [ps[|ps| - 1] + [c]]
  {
    var ps := Split(m, sep);
    var qs := ps[..|ps| - 1] + [ps[|ps| - 1] + [c]];
    JoinSplit(m, sep);
    JoinExtendsLast(ps, [c], [sep]);
    assert forall i :: 0 <= i < |qs| ==> sep !in qs[i] by {
      assert forall i :: 0 <= i < |ps| - 1 ==> qs[i] == ps[i];
    }
    SplitJoin(qs, sep);
  }

  /** Extending the last part of a join extends the join. */
  lemma {:induction false} JoinExtendsLast(ps: seq<string>, x: string, sep: string)
    requires |ps| >= 1
    ensures Join(ps[..|ps| - 1] + [ps[|ps| - 1] + x], sep) == Join(ps, sep) + x
    decreases |ps|
  {
    if |ps| > 1 {
      var qs := ps[..|ps| - 1] + [ps[|ps| - 1] + x];
      assert qs[1..] == ps[1..][..|ps| - 2] + [ps[1..][|ps| - 2] + x];
      JoinExtendsLast(ps[1..], x, sep);
    }
  }

  /** Mechanisms named in two lists of words are those of each. */
  lemma {:induction false} AuthModesAppend(a: seq<string>, b: seq<string>)
    ensures AuthModesIn(a + b) == AuthModesIn(a) + AuthModesIn(b)
    decreases |a|
  {
    if a != [] {
      assert (a + b)[1..] == a[1..] + b;
      assert (a + b)[0] == a[0];
      AuthModesAppend(a[1..], b);
    } else {
      assert a + b == b;
    }
  }

  /** The carriage return at the end of an AUTH line makes the source's
      parsing drop the last mechanism listed. */
  lemma AuthLineCarriageReturn(caps: Capabilities, m: string)
    ensures var words := Split(m, ' ');
      ParseCapabilitiesAsWritten(caps, "AUTH " + m + "\r").authModes ==
        caps.authModes + AuthModesIn(words[..|words| - 1])
  {
    AuthLineAsWrittenModes(caps, m);
    LastWordCarriageReturn(m);
  }

  /** The source's parsing of an AUTH line ending in a carriage return takes
      the mechanisms from the words of the rest of the line, carriage return
      included. */
  lemma AuthLineAsWrittenModes(caps: Capabilities, m: string)
    ensures ParseCapabilitiesAsWritten(caps, "AUTH " + m + "\r") ==
      Capabilities(caps.extensions + {Auth}, caps.authModes + AuthModesIn(Split(m + "\r", ' ')))
  {
    var text := "AUTH " + m + "\r";
    var low := Lower(text);
    assert low[..5] == "auth ";
    assert text[0] == 'A';
    assert text[5..] == m + "\r";
    AuthPrefix(text, text);
  }

  /** The carriage return sticks to the last word, which then names no
      mechanism. */
  lemma LastWordCarriageReturn(m: string)
    ensures var words := Split(m, ' ');
      AuthModesIn(Split(m + "\r", ' ')) == AuthModesIn(words[..|words| - 1])
  {
    var words := Split(m, ' ');
    SplitExtendsLast(m, '\r', ' ');
    var last := words[|words| - 1] + "\r";
    AuthModesAppend(words[..|words| - 1], [last]);
    CarriageReturnNamesNothing(words[|words| - 1]);
  }

  /** A word that ends in a carriage return names no mechanism. */
  lemma CarriageReturnNamesNothing(word: string)
    ensures AuthModesIn([word + "\r"]) == {}
  {
    var w := word + "\r";
    assert Lower(w)[|w| - 1] == '\r';
    assert !Names(w, Plain) && !Names(w, Login);
  }

  /** The corrected parsing keeps every mechanism of the same line. */
  lemma AuthLineCarriageReturnCorrected(caps: Capabilities, m: string)
    requires '\r' !in m
    ensures ParseCapabilities(caps, "AUTH " + m + "\r").authModes ==
      caps.authModes + AuthModesIn(Split(m, ' '))
  {
    var text := "AUTH " + m + "\r";
    assert StripCr(text) == "AUTH " + m;
    AuthLine(caps, m);
  }

  lemma SplitMechanisms(m: string)
    requires m == "PLAIN LOGIN"
    ensures Split(m, ' ') == ["PLAIN", "LOGIN"]
  {
    SplitJoin(["PLAIN", "LOGIN"], ' ');
    assert Join(["PLAIN", "LOGIN"], " ") == m;
  }

  /** On the line "AUTH PLAIN LOGIN" the last mechanism is LOGIN: with the
      carriage return left on, the source's parsing records only PLAIN, the
      corrected parsing both. */
  lemma AuthLineExample(m: string)
    requires m == "PLAIN LOGIN"
    ensures var words := Split(m, ' ');
      AuthModesIn(words[..|words| - 1]) == {Plain} && AuthModesIn(words) == {Plain, Login}
  {
    SplitMechanisms(m);
    assert ["PLAIN", "LOGIN"][..1] == ["PLAIN"];
    MechanismWords();
  }

  lemma MechanismWords()
    ensures AuthModesIn(["PLAIN"]) == {Plain}
    ensures AuthModesIn(["PLAIN", "LOGIN"]) == {Plain, Login}
  {
    assert Lower("PLAIN") == "plain";
    assert Lower("LOGIN") == "login";
    assert ["PLAIN", "LOGIN"][1..] == ["LOGIN"];
  }
}
