/** The Resent-* header block (section 3.6.6 of RFC 5322) that both
    redirect composers write in front of the message they pass on: the
    sender, the To and Cc recipients grouped into one header each, the date,
    a message id, the user agent and the MIME version. Blind copies are not
    written. */
module ResentHeaders {
  import opened Outcomes
  import opened Text
  import opened Addresses
  import Commands

  /** The separator between the addresses of one header: a comma and a
      folded line. */
  const Fold: string := ",\r\n "

  /** A recipient header: nothing for no address, otherwise the prefix, the
      addresses separated by `Fold`, and CRLF. */
  function HeaderList(prefix: string, addresses: seq<string>): string
  {
    if addresses == [] then "" else prefix + Join(addresses, Fold) + "\r\n"
  }

  /** Every part followed by the separator. */
  function Terminated(parts: seq<string>, sep: string): string
    decreases |parts|
  {
    if parts == [] then "" else Terminated(parts[..|parts| - 1], sep) + parts[|parts| - 1] + sep
  }

  /** The parts but the last, each followed by the separator, then the last
      part: the join. */
  lemma {:induction false} TerminatedJoin(parts: seq<string>, sep: string)
    requires |parts| >= 1
    ensures Terminated(parts[..|parts| - 1], sep) + parts[|parts| - 1] == Join(parts, sep)
    decreases |parts|
  {
    if |parts| >= 2 {
      var init := parts[..|parts| - 1];
      TerminatedJoin(init, sep);
      assert init[..|init| - 1] == parts[..|parts| - 2];
      assert init[|init| - 1] == parts[|parts| - 2];
      Commands.JoinSnoc(init, parts[|parts| - 1], sep);
      assert init + [parts[|parts| - 1]] == parts;
    }
  }

  /** One more part of a prefix adds that part and the separator. */
  lemma TerminatedStep(parts: seq<string>, i: int, sep: string)
    requires 0 <= i < |parts|
    ensures Terminated(parts[..i + 1], sep) == Terminated(parts[..i], sep) + parts[i] + sep
  {
    assert parts[..i + 1][..i] == parts[..i];
  }

  /** Appends the header for `addresses` to `out`, one address at a time. */
  method ProcessListOfRecipientsIntoHeader(prefix: string, addresses: seq<string>, out: string) returns (r: string)
    ensures r == out + HeaderList(prefix, addresses)
  {
    r := out;
    if addresses != [] {
      r := r + prefix;
      var last := |addresses| - 1;
      var i := 0;
      while i < last
        invariant 0 <= i <= last
        invariant r == out + prefix + Terminated(addresses[..i], Fold)
      {
        TerminatedStep(addresses, i, Fold);
        r := r + addresses[i] + Fold;
        i := i + 1;
      }
      TerminatedJoin(addresses, Fold);
      ghost var joined := Join(addresses, Fold);
      assert Terminated(addresses[..last], Fold) + addresses[last] == joined;
      r := r + addresses[last] + "\r\n";
      assert r == out + prefix + joined + "\r\n";
      assert HeaderList(prefix, addresses) == prefix + joined + "\r\n";
    }
  }

  /** Every line break of `t` is followed by a space. */
  predicate Folded(t: string)
  {
    forall k :: 0 <= k < |t| && t[k] == '\n' ==> k + 1 < |t| && t[k + 1] == ' '
  }

  /** Each line break of a join is followed by a space, so every line after
      the first continues the header, when no part breaks a line itself. */
  lemma {:induction false} JoinFolded(parts: seq<string>)
    requires forall i :: 0 <= i < |parts| ==> '\n' !in parts[i]
    ensures Folded(Join(parts, Fold))
    decreases |parts|
  {
    var j := Join(parts, Fold);
    if |parts| == 1 {
      forall k | 0 <= k < |j|
        ensures j[k] != '\n'
      {
        assert j[k] in parts[0];
      }
    } else if |parts| >= 2 {
      JoinFolded(parts[1..]);
      var rest := Join(parts[1..], Fold);
      assert Folded(rest);
      assert j == parts[0] + Fold + rest;
      forall k | 0 <= k < |j|
        ensures j[k] == '\n' ==> k + 1 < |j| && j[k + 1] == ' '
      {
        if k < |parts[0]| {
          assert j[k] == parts[0][k];
          assert parts[0][k] in parts[0];
        } else if k < |parts[0]| + 4 {
          assert j[k] == Fold[k - |parts[0]|];
          if k == |parts[0]| + 2 {
            assert j[k + 1] == Fold[3];
          }
        } else {
          var k' := k - |parts[0]| - 4;
          assert rest[k'] == j[k];
          if j[k] == '\n' {
            assert k' + 1 < |rest|;
            assert j[k + 1] == rest[k' + 1];
          }
        }
      }
    }
  }

  /** A recipient header is folded: inside it, every line break is followed
      by a space, and it ends with CRLF. */
  lemma HeaderFolded(prefix: string, addresses: seq<string>)
    requires '\n' !in prefix
    requires forall i :: 0 <= i < |addresses| ==> '\n' !in addresses[i]
    requires addresses != []
    ensures var h := HeaderList(prefix, addresses);
      h[|h| - 2..] == "\r\n" &&
      forall k :: 0 <= k < |h| - 1 && h[k] == '\n' ==> h[k + 1] == ' '
  {
    JoinFolded(addresses);
    var j := Join(addresses, Fold);
    assert Folded(j);
    var h := HeaderList(prefix, addresses);
    assert h == prefix + j + "\r\n";
    forall k | 0 <= k < |h| - 1
      ensures h[k] == '\n' ==> h[k + 1] == ' '
    {
      if k < |prefix| {
        assert h[k] == prefix[k];
        assert prefix[k] in prefix;
      } else if k < |prefix| + |j| {
        var k' := k - |prefix|;
        assert j[k'] == h[k];
        if h[k] == '\n' {
          assert k' + 1 < |j|;
          assert h[k + 1] == j[k' + 1];
        }
      } else {
        assert h[k] == '\r';
      }
    }
  }

  /** The header renderings of the recipients of kind `k`, in order. */
  function Headers(rs: seq<Recipient>, k: RecipientKind): (hs: seq<string>)
    ensures |hs| <= |rs|
    decreases |rs|
  {
    if rs == [] then []
    else Headers(rs[..|rs| - 1], k) + (if rs[|rs| - 1].kind == k then [rs[|rs| - 1].address.header] else [])
  }

  lemma {:induction false} HeadersAppend(a: seq<Recipient>, b: seq<Recipient>, k: RecipientKind)
    ensures Headers(a + b, k) == Headers(a, k) + Headers(b, k)
    decreases |b|
  {
    if b != [] {
      var b' := b[..|b| - 1];
      assert (a + b)[..|a + b| - 1] == a + b';
      HeadersAppend(a, b', k);
    } else {
      assert a + b == a;
    }
  }

  /** The kinds the composer produces; the others are assertions in the
      source. */
  predicate Expected(kind: RecipientKind)
  {
    kind == To || kind == Cc || kind == Bcc
  }

  predicate AllExpected(rs: seq<Recipient>)
  {
    forall i :: 0 <= i < |rs| ==> Expected(rs[i].kind)
  }

  /** The source asserts on a From, Sender or Reply-To recipient. */
  datatype HeaderFailure = UnexpectedKind

  /** The resent block: the Resent-From line, then, unless a recipient has
      a kind the composer never produces, the Resent-To and Resent-Cc
      headers, the date, the id header named `idField`, the user agent and
      the MIME version. */
  function ResentFields(from: MailAddress, rs: seq<Recipient>, stamp: DateTime, idField: string,
                        messageId: string, version: string, platform: string): (string, Outcome<HeaderFailure>)
  {
    var fromLine := "Resent-From: " + from.header + "\r\n";
    if !AllExpected(rs) then (fromLine, Fail(UnexpectedKind))
    else
      (fromLine + (HeaderList("Resent-To: ", Headers(rs, To)) + HeaderList("Resent-Cc: ", Headers(rs, Cc))) +
       Trailer(stamp, idField, messageId, version, platform), Pass)
  }

  /** The lines after the recipients: the date, the id header named
      `idField`, the user agent and the MIME version. */
  function Trailer(stamp: DateTime, idField: string, messageId: string, version: string, platform: string): string
  {
    "Resent-Date: " + stamp.rfc2822 + "\r\n" +
    idField + "<" + messageId + ">\r\n" +
    "Resent-User-Agent: Trojita/" + version + "; " + platform + "\r\n" +
    "MIME-Version: 1.0\r\n"
  }

  /** A blind copy leaves the resent block as it was: it is never
      written. */
  lemma BccNotWritten(from: MailAddress, before: seq<Recipient>, bcc: MailAddress, after: seq<Recipient>,
                      stamp: DateTime, idField: string, messageId: string, version: string, platform: string)
    ensures ResentFields(from, before + [Recipient(Bcc, bcc)] + after, stamp, idField, messageId, version, platform) ==
            ResentFields(from, before + after, stamp, idField, messageId, version, platform)
  {
    var rs := before + [Recipient(Bcc, bcc)] + after;
    var rs' := before + after;
    HeadersAppend(before + [Recipient(Bcc, bcc)], after, To);
    HeadersAppend(before + [Recipient(Bcc, bcc)], after, Cc);
    HeadersAppend(before, [Recipient(Bcc, bcc)], To);
    HeadersAppend(before, [Recipient(Bcc, bcc)], Cc);
    HeadersAppend(before, after, To);
    HeadersAppend(before, after, Cc);
    assert Headers([Recipient(Bcc, bcc)], To) == [] by {
      assert [Recipient(Bcc, bcc)][..0] == [];
    }
    assert Headers([Recipient(Bcc, bcc)], Cc) == [] by {
      assert [Recipient(Bcc, bcc)][..0] == [];
    }
    assert Headers(before + [Recipient(Bcc, bcc)], To) == Headers(before, To);
    assert Headers(before + [Recipient(Bcc, bcc)], Cc) == Headers(before, Cc);
    assert Headers(rs, To) == Headers(rs', To);
    assert Headers(rs, Cc) == Headers(rs', Cc);
    assert AllExpected(rs) <==> AllExpected(rs') by {
      if AllExpected(rs') {
        forall i | 0 <= i < |rs|
          ensures Expected(rs[i].kind)
        {
          if i < |before| {
            assert rs[i] == rs'[i];
          } else if i > |before| {
            assert rs[i] == rs'[i - 1];
          }
        }
      }
      if AllExpected(rs) {
        forall i | 0 <= i < |rs'|
          ensures Expected(rs'[i].kind)
        {
          if i < |before| {
            assert rs'[i] == rs[i];
          } else {
            assert rs'[i] == rs[i + 1];
          }
        }
      }
    }
  }

  /** Writes the resent block, grouping the recipients into To and Cc lists
      in one pass; stops after the Resent-From line at a recipient of a kind
      the composer never produces. */
  method WriteResentFields(from: MailAddress, rs: seq<Recipient>, stamp: DateTime, idField: string,
                           messageId: string, version: string, platform: string)
    returns (written: string, outcome: Outcome<HeaderFailure>)
    ensures (written, outcome) == ResentFields(from, rs, stamp, idField, messageId, version, platform)
  {
    written := "Resent-From: " + from.header + "\r\n";
    var rcptTo, rcptCc := [], [];
    var i := 0;
    while i < |rs|
      invariant 0 <= i <= |rs|
      invariant rcptTo == Headers(rs[..i], To) && rcptCc == Headers(rs[..i], Cc)
      invariant AllExpected(rs[..i])
    {
      assert rs[..i + 1][..i] == rs[..i];
      match rs[i].kind {
        case To => rcptTo := rcptTo + [rs[i].address.header];
        case Cc => rcptCc := rcptCc + [rs[i].address.header];
        case Bcc =>
        case _ =>
          assert !AllExpected(rs);
          return written, Fail(UnexpectedKind);
      }
      i := i + 1;
    }
    assert rs[..i] == rs;
    var recipientHeaders := ProcessListOfRecipientsIntoHeader("Resent-To: ", rcptTo, "");
    recipientHeaders := ProcessListOfRecipientsIntoHeader("Resent-Cc: ", rcptCc, recipientHeaders);
    assert recipientHeaders == HeaderList("Resent-To: ", rcptTo) + HeaderList("Resent-Cc: ", rcptCc);
    written := written + recipientHeaders + Trailer(stamp, idField, messageId, version, platform);
    outcome := Pass;
  }

  /** The text with every brace removed. */
  function WithoutBraces(s: string): (r: string)
    ensures '{' !in r && '}' !in r
    ensures |r| <= |s|
    decreases |s|
  {
    if s == [] then []
    else WithoutBraces(s[..|s| - 1]) + (if s[|s| - 1] in "{}" then [] else [s[|s| - 1]])
  }

  /** Removing braces keeps a text that has none, and removing them twice
      is removing them once. */
  lemma {:induction false} WithoutBracesKeeps(s: string)
    requires '{' !in s && '}' !in s
    ensures WithoutBraces(s) == s
    decreases |s|
  {
    if s != [] {
      assert s[|s| - 1] in s;
      WithoutBracesKeeps(s[..|s| - 1]);
      assert s[..|s| - 1] + [s[|s| - 1]] == s;
    }
  }

  /** A message id for the sender: empty when the sender has no host part,
      otherwise the random UUID without its braces, '@' and the host. */
  function GenerateMessageId(sender: MailAddress, uuid: string): (id: string)
    ensures sender.host == [] <==> id == []
    ensures sender.host != [] ==> id == WithoutBraces(uuid) + "@" + sender.host
  {
    if sender.host == [] then [] else WithoutBraces(uuid) + "@" + sender.host
  }

  /** Why a redirected message could not be written. */
  datatype RedirectFailure =
    | UnexpectedRecipient   // a From, Sender or Reply-To recipient, an assertion in the source
    | NotAvailable          // the original message has not been fetched
    | NoCatenate            // the redirect cannot be sent as CATENATE data

  /** The text shown for a failure; the assertion has none. */
  function ErrorMessage(f: RedirectFailure): (text: string)
    ensures f.NotAvailable? ==> text == "Message not available"
    ensures f.NoCatenate? ==> text == "CATENATE not available currenly"
    ensures f.UnexpectedRecipient? <==> text == ""
  {
    match f
    case UnexpectedRecipient => ""
    case NotAvailable => "Message not available"
    case NoCatenate => "CATENATE not available currenly"
  }

  /** What a redirect writes: the resent block and, when the original
      message is available, the original after it. */
  function Redirected(from: MailAddress, rs: seq<Recipient>, stamp: DateTime, idField: string, messageId: string,
                      version: string, platform: string, available: bool, original: string): (string, Outcome<RedirectFailure>)
  {
    var (block, o) := ResentFields(from, rs, stamp, idField, messageId, version, platform);
    if o.Fail? then (block, Fail(UnexpectedRecipient))
    else if available then (block + original, Pass)
    else (block, Fail(NotAvailable))
  }

  /** A redirect succeeds exactly when every recipient has an expected kind
      and the original is available; the original then follows the resent
      block byte for byte, and the block starts with the sender. Otherwise
      nothing of the original is written. */
  lemma RedirectedMeans(from: MailAddress, rs: seq<Recipient>, stamp: DateTime, idField: string, messageId: string,
                        version: string, platform: string, available: bool, original: string)
    ensures var (w, o) := Redirected(from, rs, stamp, idField, messageId, version, platform, available, original);
      var block := ResentFields(from, rs, stamp, idField, messageId, version, platform).0;
      (o.Pass? <==> AllExpected(rs) && available) &&
      (o.Pass? ==> |w| >= |original| && w[|w| - |original|..] == original && w[..|w| - |original|] == block) &&
      (o.Fail? ==> w == block && (o.failure == NotAvailable <==> AllExpected(rs))) &&
      w[..|"Resent-From: "|] == "Resent-From: "
  {
    var block := ResentFields(from, rs, stamp, idField, messageId, version, platform).0;
    assert block[..|"Resent-From: "|] == "Resent-From: ";
  }
}
