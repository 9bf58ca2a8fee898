/** The SMTP submission client: it answers the server's replies one line at
    a time, choosing the next command from the last command sent and the
    reply status, and keeps the commands it has built in a tagged queue
    whose head it writes to the socket. */
module SmtpClient {
  import opened Outcomes
  import opened Text
  import opened Commands
  import opened Reply
  import Caps = Capabilities
  import DotStuffing
  import Base64

  datatype State = Disconnected | Connecting | Ready

  /** The command the client last sent, which decides how a reply is read. */
  datatype SmtpCommand = Init | Helo | Ehlo | Auth | Mail | Rcpt | Data | Quit

  /** The ways a step ends at one of the source's assertions: a reply while
      not connecting, a reply the table has no move for, a reply line that
      is not a reply, or a send with nothing queued or a command with no
      part to send. */
  datatype Failure =
    | NotConnecting
    | Unhandled(command: SmtpCommand, status: int)
    | Malformed
    | EmptyQueue
    | NoSuchPart

  /** The part of the client's state that replies change. `written` is what
      went to the socket, one entry per write. */
  datatype Session = Session(
    state: State,
    command: SmtpCommand,
    caps: Caps.Capabilities,
    commandTag: int,
    queue: seq<CommandValue>,
    written: seq<string>)

  /** A command whose parts are the given atoms. */
  function Atoms(texts: seq<string>): (parts: seq<PartOfCommand>)
    ensures |parts| == |texts|
    ensures forall i :: 0 <= i < |texts| ==> parts[i] == PartOfCommand(Atom, texts[i])
  {
    seq(|texts|, i requires 0 <= i < |texts| => PartOfCommand(Atom, texts[i]))
  }

  /** Queueing a command: the tag counter is increased first and the command
      goes to the tail with the new tag. */
  function Enqueue(s: Session, parts: seq<PartOfCommand>, currentPart: int): Session
  {
    s.(commandTag := s.commandTag + 1,
       queue := s.queue + [CommandValue(parts, currentPart, s.commandTag + 1)])
  }

  /** What the client writes for a command: the parts from the current one
      on, separated by single spaces, then CRLF. */
  function Line(cmd: CommandValue): (line: string)
    requires 0 <= cmd.currentPart < |cmd.parts|
  {
    Join(Texts(cmd.parts)[cmd.currentPart..], " ") + "\r\n"
  }

  /** Sending the head of the queue: it is written and removed; an empty
      queue or a head with no part at its current index is a failure. */
  function Execute(s: Session): (Session, Outcome<Failure>)
  {
    if s.queue == [] then (s, Fail(EmptyQueue))
    else if !(0 <= s.queue[0].currentPart < |s.queue[0].parts|) then (s, Fail(NoSuchPart))
    else (s.(queue := s.queue[1..], written := s.written + [Line(s.queue[0])]), Pass)
  }

  /** The AUTH PLAIN credentials of RFC 4616: an empty authorisation
      identity, the user and the password, separated by NUL bytes, in
      Base64. */
  function AuthPlainToken(user: seq<Base64.byte>, password: seq<Base64.byte>): string
  {
    Base64.Encode([0 as Base64.byte] + user + [0 as Base64.byte] + password)
  }

  /** The move for one reply: whether the client becomes ready, the flags
      after it, the command it queues, whether it sends at once, and the
      command it moves to (a send follows when that differs from the last). */
  datatype Move = Move(
    ready: bool,
    caps: Caps.Capabilities,
    queued: Option<seq<string>>,
    sendNow: bool,
    next: SmtpCommand)

  /** The move on a 250 reply to EHLO once the line's flags `c` are known:
      after the last line, an announced AUTH moves on to AUTH, queueing
      AUTH PLAIN when PLAIN was announced; otherwise the client stays. */
  function EhloAccepted(r: Response, c: Caps.Capabilities): Move
  {
    if !r.isMultiline && Caps.Auth in c.extensions then
      Move(false, c, if Caps.Plain in c.authModes then Some(["AUTH", "PLAIN"]) else None, false, Auth)
    else Move(false, c, None, false, Ehlo)
  }

  /** The table of the source's `nextCommand`, keyed on the last command and
      the reply status. Every combination the source answers with an
      assertion is `Unhandled`. Only the credentials are sent at once, and
      then the command stays. */
  function Decide(last: SmtpCommand, r: Response, caps: Caps.Capabilities, noRecipients: bool, token: string)
    : (m: Result<Move, Failure>)
    ensures m.Err? ==> m.error == Unhandled(last, r.status)
    ensures m.Ok? ==> m.value.caps.extensions >= caps.extensions && m.value.caps.authModes >= caps.authModes
    ensures m.Ok? && m.value.sendNow ==> last == Auth && m.value.next == last
  {
    var stay := Move(false, caps, None, false, last);
    match last
    case Init =>
      if r.status == 220 then Ok(Move(true, caps, Some(["EHLO", "localhost"]), false, Ehlo))
      else Err(Unhandled(last, r.status))
    case Ehlo =>
      if r.status == 250 then Ok(EhloAccepted(r, Caps.ParseCapabilities(caps, r.text)))
      else if r.status == 550 || r.status == 502 then Ok(stay.(next := Helo))
      else Err(Unhandled(last, r.status))
    case Helo => Err(Unhandled(last, r.status))
    case Auth =>
      if r.status == 334 then Ok(stay.(queued := Some([token]), sendNow := true))
      else Err(Unhandled(last, r.status))
    case Mail =>
      if r.status == 250 then Ok(stay.(next := Rcpt)) else Err(Unhandled(last, r.status))
    case Rcpt =>
      if r.status == 250 || r.status == 251 then Ok(if noRecipients then stay.(next := Data) else stay)
      else Err(Unhandled(last, r.status))
    case Data =>
      if r.status == 250 then Ok(stay.(next := Quit)) else Err(Unhandled(last, r.status))
    case Quit =>
      if r.status == 220 then Ok(stay) else Err(Unhandled(last, r.status))
  }

  /** The first part of a move, in the source's order: state and flags,
      the queued command, then the immediate send. */
  function Prepare(s: Session, m: Move): (Session, Outcome<Failure>)
  {
    var s1 := s.(state := if m.ready then Ready else s.state, caps := m.caps);
    var s2 := if m.queued.Some? then Enqueue(s1, Atoms(m.queued.value), 0) else s1;
    if m.sendNow then Execute(s2) else (s2, Pass)
  }

  /** Carrying out a move: its first part, then the send that a change of
      command causes. */
  function Perform(s: Session, m: Move): (Session, Outcome<Failure>)
  {
    var (s3, o) := Prepare(s, m);
    if o.Fail? then (s3, o)
    else if m.next != s.command then Execute(s3.(command := m.next))
    else (s3, Pass)
  }

  /** One reply handled: refused unless the client is connecting, then the
      table's move. */
  function Respond(s: Session, r: Response, noRecipients: bool, token: string): (Session, Outcome<Failure>)
  {
    if s.state != Connecting then (s, Fail(NotConnecting))
    else match Decide(s.command, r, s.caps, noRecipients, token)
      case Err(f) => (s, Fail(f))
      case Ok(m) => Perform(s, m)
  }

  /** Reply lines handled in order until one fails. */
  function RespondAll(s: Session, lines: seq<string>, noRecipients: bool, token: string): (Session, Outcome<Failure>)
    decreases |lines|
  {
    if lines == [] then (s, Pass)
    else match ParseLine(lines[0])
      case Err(_) => (s, Fail(Malformed))
      case Ok(r) =>
        var (s1, o) := Respond(s, r, noRecipients, token);
        if o.Fail? then (s1, o) else RespondAll(s1, lines[1..], noRecipients, token)
  }

  lemma RespondAllFirst(s: Session, lines: seq<string>, noRecipients: bool, token: string)
    requires lines != []
    ensures RespondAll(s, lines, noRecipients, token) ==
      if ParseLine(lines[0]).Err? then (s, Fail(Malformed))
      else
        var (s1, o) := Respond(s, ParseLine(lines[0]).value, noRecipients, token);
        if o.Fail? then (s1, o) else RespondAll(s1, lines[1..], noRecipients, token)
  {
  }

  /** Each address in angle brackets, in order. */
  function Bracketed(addresses: seq<string>): (r: seq<string>)
    ensures |r| == |addresses|
    ensures forall i :: 0 <= i < |addresses| ==> r[i] == "<" + addresses[i] + ">"
  {
    seq(|addresses|, i requires 0 <= i < |addresses| => "<" + addresses[i] + ">")
  }

  /** The bytes of a command, built part by part from its current part on:
      a space between parts and CRLF after the last. */
  method WriteParts(cmd: CommandValue) returns (buf: string)
    requires 0 <= cmd.currentPart < |cmd.parts|
    ensures buf == Line(cmd)
  {
    ghost var texts := Texts(cmd.parts);
    var current := cmd.currentPart;
    buf := "";
    while true
      invariant cmd.currentPart <= current < |cmd.parts|
      invariant buf + Join(texts[current..], " ") == Join(texts[cmd.currentPart..], " ")
      decreases |cmd.parts| - current
    {
      var part := cmd.parts[current];
      assert texts[current] == part.text;
      ghost var before := buf;
      if part.kind == Atom {
        buf := buf + part.text;
      }
      if current == |cmd.parts| - 1 {
        JoinFrom(texts, current);
        buf := buf + "\r\n";
        return;
      }
      WriteStep(texts, current, before, Join(texts[cmd.currentPart..], " "));
      buf := buf + " ";
      current := current + 1;
    }
  }

  /** Joining from part `i` on: that part, then the separator and the rest
      when there is a rest. */
  lemma JoinFrom(texts: seq<string>, i: nat)
    requires i < |texts|
    ensures Join(texts[i..], " ") ==
      if i == |texts| - 1 then texts[i] else texts[i] + " " + Join(texts[i + 1..], " ")
  {
    assert texts[i..][1..] == texts[i + 1..];
  }

  /** Appending a part that is not the last, and the space after it, moves
      the join of what remains one part on. */
  lemma WriteStep(texts: seq<string>, i: nat, written: string, whole: string)
    requires i < |texts| - 1
    requires written + Join(texts[i..], " ") == whole
    ensures written + texts[i] + " " + Join(texts[i + 1..], " ") == whole
  {
    JoinFrom(texts, i);
    assert written + Join(texts[i..], " ") == written + texts[i] + " " + Join(texts[i + 1..], " ");
  }

  class Client {
    var commandTag: int
    var state: State
    var command: SmtpCommand
    var extensions: set<Caps.Extension>
    var authModes: set<Caps.AuthMode>
    var queue: seq<CommandValue>
    var written: seq<string>
    var user: seq<Base64.byte>
    var password: seq<Base64.byte>
    var from: string
    var to: seq<string>
    var data: string

    function Snapshot(): Session
      reads this
    {
      Session(state, command, Caps.Capabilities(extensions, authModes), commandTag, queue, written)
    }

    /** The submission parameters, which replies never change. */
    function Params(): (seq<Base64.byte>, seq<Base64.byte>, string, seq<string>, string)
      reads this
    {
      (user, password, from, to, data)
    }

    /** A client that has sent nothing: tag counter 0, disconnected, at the
      start of the dialogue, with no flags and an empty queue. */
    constructor ()
      ensures Snapshot() == Session(Disconnected, Init, Caps.NoCapabilities, 0, [], [])
      ensures to == []
    {
      commandTag := 0;
      state := Disconnected;
      command := Init;
      extensions := {};
      authModes := {};
      queue := [];
      written := [];
      user := [];
      password := [];
      from := "";
      to := [];
      data := "";
    }

    /** Opening the connection; the socket itself is outside the model. */
    method DoConnect()
      modifies this
      ensures Snapshot() == old(Snapshot()).(state := Connecting)
      ensures Params() == old(Params())
    {
      state := Connecting;
    }

    method CloseConnection()
      modifies this
      ensures Snapshot() == old(Snapshot()).(state := Disconnected)
      ensures Params() == old(Params())
    {
      state := Disconnected;
    }

    method SetAuthParams(u: seq<Base64.byte>, p: seq<Base64.byte>)
      modifies this
      ensures user == u && password == p
      ensures Snapshot() == old(Snapshot())
      ensures from == old(from) && to == old(to) && data == old(data)
    {
      user := u;
      password := p;
    }

    /** Stores the sender and recipients in angle brackets, appending the
      recipients to those already stored, and dot-stuffs the body. The
      caller's buffer is rewritten in place in the source; here the
      stuffed body is returned for the caller to store. */
    method SetMailParams(f: string, recipients: seq<string>, body: string) returns (stuffed: string)
      modifies this
      ensures from == "<" + f + ">"
      ensures to == old(to) + Bracketed(recipients)
      ensures stuffed == DotStuffing.Stuff(body) && data == stuffed
      ensures user == old(user) && password == old(password)
      ensures Snapshot() == old(Snapshot())
    {
      from := "<" + f + ">";
      var i := 0;
      while i < |recipients|
        invariant 0 <= i <= |recipients|
        invariant to == old(to) + Bracketed(recipients[..i]) && from == "<" + f + ">"
        invariant Snapshot() == old(Snapshot()) && user == old(user) && password == old(password)
      {
        assert Bracketed(recipients[..i + 1]) == Bracketed(recipients[..i]) + ["<" + recipients[i] + ">"];
        to := to + ["<" + recipients[i] + ">"];
        i := i + 1;
      }
      assert recipients[..i] == recipients;
      stuffed := DotStuffing.Stuff(body);
      data := stuffed;
    }

    /** The next tag: one more than the last. */
    method GenerateTag() returns (tag: int)
      modifies this
      ensures tag == old(commandTag) + 1 && commandTag == tag
      ensures Snapshot() == old(Snapshot()).(commandTag := tag)
      ensures Params() == old(Params())
    {
      commandTag := commandTag + 1;
      tag := commandTag;
    }

    /** Tags the command with a new tag and appends a copy of it to the
      queue. */
    method QueueCommand(cmd: Command) returns (tag: int)
      modifies this, cmd
      ensures tag == old(commandTag) + 1
      ensures cmd.tag == tag && cmd.parts == old(cmd.parts) && cmd.currentPart == old(cmd.currentPart)
      ensures Snapshot() == Enqueue(old(Snapshot()), old(cmd.parts), old(cmd.currentPart))
      ensures Params() == old(Params())
    {
      tag := GenerateTag();
      cmd.AddTag(tag);
      queue := queue + [cmd.Value()];
    }

    /** Queues `EHLO <localname>`. */
    method Ehlo(localname: string) returns (tag: int)
      modifies this
      ensures tag == old(commandTag) + 1
      ensures Snapshot() == Enqueue(old(Snapshot()), Atoms(["EHLO", localname]), 0)
      ensures Params() == old(Params())
    {
      var cmd := new Command.Named("EHLO");
      cmd := cmd.Append(localname);
      assert cmd.parts == Atoms(["EHLO", localname]);
      tag := QueueCommand(cmd);
    }

    /** Queues `AUTH <mechanism>`. */
    method Auth(mechanism: string) returns (tag: int)
      modifies this
      ensures tag == old(commandTag) + 1
      ensures Snapshot() == Enqueue(old(Snapshot()), Atoms(["AUTH", mechanism]), 0)
      ensures Params() == old(Params())
    {
      var cmd := new Command.Named("AUTH");
      cmd := cmd.Append(mechanism);
      assert cmd.parts == Atoms(["AUTH", mechanism]);
      tag := QueueCommand(cmd);
    }

    /** Queues the Base64 credentials that answer the server's 334 challenge. */
    method AuthPlainStageTwo() returns (tag: int)
      modifies this
      ensures tag == old(commandTag) + 1
      ensures Snapshot() == Enqueue(old(Snapshot()), Atoms([AuthPlainToken(user, password)]), 0)
      ensures Params() == old(Params())
    {
      var ba: seq<Base64.byte> := [0 as Base64.byte] + user + [0 as Base64.byte] + password;
      var encoded := Base64.Encode(ba);
      var cmd := new Command();
      cmd := cmd.Append(encoded);
      assert cmd.parts == Atoms([encoded]);
      tag := QueueCommand(cmd);
    }

    /** Writes the head of the queue and removes it from the queue. */
    method ExecuteCommands() returns (outcome: Outcome<Failure>)
      modifies this
      ensures (Snapshot(), outcome) == Execute(old(Snapshot()))
      ensures Params() == old(Params())
    {
      if queue == [] {
        return Fail(EmptyQueue);
      }
      var cmd := queue[0];
      if !(0 <= cmd.currentPart < |cmd.parts|) {
        return Fail(NoSuchPart);
      }
      var buf := WriteParts(cmd);
      written := written + [buf];
      queue := queue[1..];
      outcome := Pass;
    }

    /** Reads the flags one EHLO reply line announces into the client's
      flags: a keyword sets its extension, an AUTH line sets the AUTH
      extension and the mechanisms it names. */
    method ParseCapabilities(text: string)
      modifies this
      ensures Snapshot() == old(Snapshot()).(caps := Caps.ParseCapabilities(old(Snapshot()).caps, text))
      ensures Params() == old(Params())
    {
      var line := Caps.StripCr(text);
      var announcement := Caps.Classify(line, Lower(line));
      ghost var before := Caps.Capabilities(extensions, authModes);
      assert Caps.ParseCapabilities(before, text) == Caps.Apply(before, announcement);
      match announcement {
        case Announces(e) =>
          extensions := extensions + {e};
        case AuthWith(modes) =>
          var words := Split(line[5..], ' ');
          assert modes == Caps.AuthModesIn(words);
          extensions := extensions + {Caps.Auth};
          AddAuthModes(words);
        case Nothing =>
      }
    }

    /** Sets the mechanism flag of every word that names one. */
    method AddAuthModes(words: seq<string>)
      modifies this
      ensures Snapshot() == old(Snapshot()).(caps := Caps.Capabilities(old(extensions), old(authModes) + Caps.AuthModesIn(words)))
      ensures Params() == old(Params())
    {
      var i := 0;
      while i < |words|
        invariant 0 <= i <= |words|
        invariant authModes == old(authModes) + Caps.AuthModesIn(words[..i])
        invariant extensions == old(extensions) && state == old(state) && command == old(command)
        invariant commandTag == old(commandTag) && queue == old(queue) && written == old(written)
        invariant Params() == old(Params())
      {
        ghost var before := authModes;
        if Caps.Names(words[i], Caps.Plain) {
          authModes := authModes + {Caps.Plain};
        }
        if Caps.Names(words[i], Caps.Login) {
          authModes := authModes + {Caps.Login};
        }
        assert authModes == before + Caps.ModesOfWord(words[i]);
        Caps.AddWord(before, old(authModes), words, i);
        i := i + 1;
      }
      assert words[..i] == words;
    }

    /** Dispatches a reply to the table, but only while connecting. */
    method HandleResponse(response: Response) returns (outcome: Outcome<Failure>)
      modifies this
      ensures (Snapshot(), outcome) == Respond(old(Snapshot()), response, old(to) == [], AuthPlainToken(old(user), old(password)))
      ensures Params() == old(Params())
    {
      if state == Connecting {
        outcome := NextCommand(response);
      } else {
        outcome := Fail(NotConnecting);
      }
    }

    /** The switch of the source's `nextCommand`: acts on the reply as the
      last command demands and chooses the next command. */
    method React(response: Response) returns (next: SmtpCommand, outcome: Outcome<Failure>)
      modifies this
      ensures var m := Decide(old(command), response, old(Snapshot()).caps, old(to) == [], AuthPlainToken(old(user), old(password)));
        if m.Err? then Snapshot() == old(Snapshot()) && outcome == Fail(m.error)
        else next == m.value.next && (Snapshot(), outcome) == Prepare(old(Snapshot()), m.value)
      ensures Params() == old(Params())
    {
      var last := command;
      next := last;
      var status := response.status;
      match last {
      case Init =>
        if status == 220 {
          state := Ready;
          next := SmtpCommand.Ehlo;
          var _ := Ehlo("localhost");
        } else {
          outcome := Fail(Unhandled(last, status));
          return;
        }
      case Ehlo =>
        if status == 250 {
          ParseCapabilities(response.text);
          if !response.isMultiline {
            if Caps.Auth in extensions {
              next := SmtpCommand.Auth;
              if Caps.Plain in authModes {
                var _ := Auth("PLAIN");
              }
            }
          }
        } else if status == 550 || status == 502 {
          next := SmtpCommand.Helo;
        } else {
          outcome := Fail(Unhandled(last, status));
          return;
        }
      case Helo =>
        outcome := Fail(Unhandled(last, status));
        return;
      case Auth =>
        if status == 334 {
          var _ := AuthPlainStageTwo();
          outcome := ExecuteCommands();
          if outcome.Fail? {
            return;
          }
        } else {
          outcome := Fail(Unhandled(last, status));
          return;
        }
      case Mail =>
        if status == 250 {
          next := SmtpCommand.Rcpt;
        } else {
          outcome := Fail(Unhandled(last, status));
          return;
        }
      case Rcpt =>
        if status == 250 || status == 251 {
          if to == [] {
            next := SmtpCommand.Data;
          }
        } else {
          outcome := Fail(Unhandled(last, status));
          return;
        }
      case Data =>
        if status == 250 {
          next := SmtpCommand.Quit;
        } else {
          outcome := Fail(Unhandled(last, status));
          return;
        }
      case Quit =>
        if status != 220 {
          outcome := Fail(Unhandled(last, status));
          return;
        }
      }
      outcome := Pass;
    }

    /** The source's `nextCommand`: acts on the reply as the last command
      demands and sends the head of the queue when the command changes. */
    method NextCommand(response: Response) returns (outcome: Outcome<Failure>)
      modifies this
      ensures var m := Decide(old(command), response, old(Snapshot()).caps, old(to) == [], AuthPlainToken(old(user), old(password)));
        (Snapshot(), outcome) == if m.Err? then (old(Snapshot()), Fail(m.error)) else Perform(old(Snapshot()), m.value)
      ensures Params() == old(Params())
    {
      var last := command;
      var next;
      next, outcome := React(response);
      if outcome.Fail? {
        return;
      }
      if next != last {
        command := next;
        outcome := ExecuteCommands();
      }
    }

    /** Handles the reply lines the socket has ready, in order, stopping at
      the first that fails. */
    method SlotReadyRead(lines: seq<string>) returns (outcome: Outcome<Failure>)
      modifies this
      ensures (Snapshot(), outcome) == RespondAll(old(Snapshot()), lines, old(to) == [], AuthPlainToken(old(user), old(password)))
      ensures Params() == old(Params())
    {
      ghost var noRecipients, token := to == [], AuthPlainToken(user, password);
      ghost var goal := RespondAll(Snapshot(), lines, noRecipients, token);
      var i := 0;
      outcome := Pass;
      while i < |lines|
        invariant 0 <= i <= |lines|
        invariant Params() == old(Params())
        invariant goal == RespondAll(Snapshot(), lines[i..], noRecipients, token) && outcome == Pass
      {
        RespondAllFirst(Snapshot(), lines[i..], noRecipients, token);
        assert lines[i..][1..] == lines[i + 1..];
        var parsed := ParseLine(lines[i]);
        if parsed.Err? {
          return Fail(Malformed);
        }
        outcome := HandleResponse(parsed.value);
        if outcome.Fail? {
          return;
        }
        i := i + 1;
      }
    }
  }

  /** The tags in the queue increase from head to tail and none is above
      the tag counter. */
  predicate TagsAscending(s: Session)
  {
    (forall i, j :: 0 <= i < j < |s.queue| ==> s.queue[i].tag < s.queue[j].tag) &&
    (forall i :: 0 <= i < |s.queue| ==> s.queue[i].tag <= s.commandTag)
  }

  lemma EnqueueKeepsTags(s: Session, parts: seq<PartOfCommand>, currentPart: int)
    requires TagsAscending(s)
    ensures TagsAscending(Enqueue(s, parts, currentPart))
  {
    var q := Enqueue(s, parts, currentPart).queue;
    assert forall i :: 0 <= i < |s.queue| ==> q[i] == s.queue[i];
  }

  lemma ExecuteKeepsTags(s: Session)
    requires TagsAscending(s)
    ensures TagsAscending(Execute(s).0)
  {
    if s.queue != [] {
      assert forall i :: 0 <= i < |s.queue| - 1 ==> s.queue[1..][i] == s.queue[i + 1];
    }
  }

  lemma PrepareKeepsTags(s: Session, m: Move)
    requires TagsAscending(s)
    ensures TagsAscending(Prepare(s, m).0)
  {
    var s1 := s.(state := if m.ready then Ready else s.state, caps := m.caps);
    if m.queued.Some? {
      EnqueueKeepsTags(s1, Atoms(m.queued.value), 0);
      ExecuteKeepsTags(Enqueue(s1, Atoms(m.queued.value), 0));
    } else {
      ExecuteKeepsTags(s1);
    }
  }

  /** Carrying out a move keeps the tags of the queue in order. */
  lemma PerformKeepsTags(s: Session, m: Move)
    requires TagsAscending(s)
    ensures TagsAscending(Perform(s, m).0)
  {
    PrepareKeepsTags(s, m);
    var (s3, o) := Prepare(s, m);
    ExecuteKeepsTags(s3.(command := m.next));
  }

  /** Handling a reply keeps the tags of the queue in order. */
  lemma RespondKeepsTags(s: Session, r: Response, noRecipients: bool, token: string)
    requires TagsAscending(s)
    ensures TagsAscending(Respond(s, r, noRecipients, token).0)
  {
    if s.state == Connecting {
      var d := Decide(s.command, r, s.caps, noRecipients, token);
      if d.Ok? {
        PerformKeepsTags(s, d.value);
      }
    }
  }

  /** Handling any number of reply lines keeps the tags of the queue in
      order. */
  lemma {:induction false} RespondAllKeepsTags(s: Session, lines: seq<string>, noRecipients: bool, token: string)
    requires TagsAscending(s)
    ensures TagsAscending(RespondAll(s, lines, noRecipients, token).0)
    decreases |lines|
  {
    if lines != [] && ParseLine(lines[0]).Ok? {
      var r := ParseLine(lines[0]).value;
      RespondKeepsTags(s, r, noRecipients, token);
      var (s1, o) := Respond(s, r, noRecipients, token);
      if o.Pass? {
        RespondAllKeepsTags(s1, lines[1..], noRecipients, token);
      }
    }
  }

  /** Replies never take back an extension or a mechanism the server
      announced, and what went to the socket stays there. */
  lemma {:induction false} RespondAllGrows(s: Session, lines: seq<string>, noRecipients: bool, token: string)
    ensures var s' := RespondAll(s, lines, noRecipients, token).0;
      s.caps.extensions <= s'.caps.extensions && s.caps.authModes <= s'.caps.authModes &&
      s.written <= s'.written
    decreases |lines|
  {
    if lines != [] && ParseLine(lines[0]).Ok? {
      var r := ParseLine(lines[0]).value;
      var (s1, o) := Respond(s, r, noRecipients, token);
      RespondGrows(s, r, noRecipients, token);
      if o.Pass? {
        RespondAllGrows(s1, lines[1..], noRecipients, token);
      }
    }
  }

  /** Carrying out a move adds at most two writes and keeps what was
      written. */
  lemma PerformGrows(s: Session, m: Move)
    ensures var s' := Perform(s, m).0;
      m.caps == s'.caps && s.written <= s'.written && |s'.written| <= |s.written| + 2
  {
  }

  /** One reply adds at most two writes, the immediate send and the send a
      change of command causes, and keeps the flags it had. */
  lemma RespondGrows(s: Session, r: Response, noRecipients: bool, token: string)
    ensures var s' := Respond(s, r, noRecipients, token).0;
      s.caps.extensions <= s'.caps.extensions && s.caps.authModes <= s'.caps.authModes &&
      s.written <= s'.written && |s'.written| <= |s.written| + 2
  {
    if s.state == Connecting {
      var d := Decide(s.command, r, s.caps, noRecipients, token);
      if d.Ok? {
        PerformGrows(s, d.value);
      }
    }
  }

  /** The line of a command built from atoms, sent from its first part. */
  lemma LineOfAtoms(texts: seq<string>, tag: int)
    requires |texts| >= 1
    ensures Line(CommandValue(Atoms(texts), 0, tag)) == Join(texts, " ") + "\r\n"
  {
    assert Texts(Atoms(texts))[0..] == texts;
  }

  /** A move that queues a command, sends nothing at once and changes the
      command, on an empty queue: the queued command is written. */
  lemma PerformQueuedThenChange(s: Session, m: Move)
    requires s.queue == [] && m.queued.Some? && |m.queued.value| >= 1
    requires !m.sendNow && m.next != s.command
    ensures Perform(s, m) ==
      (s.(state := if m.ready then Ready else s.state, caps := m.caps, command := m.next,
          commandTag := s.commandTag + 1, written := s.written + [Join(m.queued.value, " ") + "\r\n"]), Pass)
  {
    var cmd := CommandValue(Atoms(m.queued.value), 0, s.commandTag + 1);
    LineOfAtoms(m.queued.value, s.commandTag + 1);
    var s2 := Enqueue(s.(state := if m.ready then Ready else s.state, caps := m.caps), Atoms(m.queued.value), 0);
    assert s2.queue == [cmd];
    assert Prepare(s, m) == (s2, Pass);
    assert [cmd][1..] == [];
  }

  /** A move that queues a command and sends it at once without changing the
      command, on an empty queue. */
  lemma PerformQueuedNow(s: Session, m: Move)
    requires s.queue == [] && m.queued.Some? && |m.queued.value| >= 1
    requires m.sendNow && m.next == s.command
    ensures Perform(s, m) ==
      (s.(state := if m.ready then Ready else s.state, caps := m.caps,
          commandTag := s.commandTag + 1, written := s.written + [Join(m.queued.value, " ") + "\r\n"]), Pass)
  {
    var cmd := CommandValue(Atoms(m.queued.value), 0, s.commandTag + 1);
    LineOfAtoms(m.queued.value, s.commandTag + 1);
    var s2 := Enqueue(s.(state := if m.ready then Ready else s.state, caps := m.caps), Atoms(m.queued.value), 0);
    assert s2.queue == [cmd];
    assert [cmd][1..] == [];
  }

  /** The AUTH PLAIN command line. */
  lemma AuthPlainLine()
    ensures Join(["AUTH", "PLAIN"], " ") + "\r\n" == "AUTH PLAIN\r\n"
  {
    JoinTwo("AUTH", "PLAIN", " ");
  }

  lemma JoinTwo(a: string, b: string, sep: string)
    ensures Join([a, b], sep) == a + sep + b
  {
    assert [a, b][1..] == [b];
  }

  /** The greeting: on 220 the client becomes ready, queues EHLO localhost
      and, the command having changed, writes it at once. */
  lemma GreetingSendsEhlo(s: Session, r: Response, noRecipients: bool, token: string)
    requires s.state == Connecting && s.command == Init && s.queue == []
    requires r.status == 220
    ensures Respond(s, r, noRecipients, token) ==
      (s.(state := Ready, command := Ehlo, commandTag := s.commandTag + 1,
          written := s.written + ["EHLO localhost\r\n"]), Pass)
  {
    var m := Move(true, s.caps, Some(["EHLO", "localhost"]), false, Ehlo);
    assert Decide(s.command, r, s.caps, noRecipients, token) == Ok(m);
    PerformQueuedThenChange(s, m);
    JoinTwo("EHLO", "localhost", " ");
    assert "EHLO" + " " + "localhost" + "\r\n" == "EHLO localhost\r\n";
  }

  /** The greeting leaves the client ready rather than connecting, and a
      reply is only handled while connecting: the reply to EHLO is refused. */
  lemma GreetingEndsDialogue(s: Session, greeting: string, next: string, noRecipients: bool, token: string)
    requires s.state == Connecting && s.command == Init && s.queue == []
    requires ParseLine(greeting).Ok? && ParseLine(greeting).value.status == 220
    requires ParseLine(next).Ok?
    ensures RespondAll(s, [greeting, next], noRecipients, token) ==
      (s.(state := Ready, command := Ehlo, commandTag := s.commandTag + 1,
          written := s.written + ["EHLO localhost\r\n"]), Fail(NotConnecting))
  {
    GreetingSendsEhlo(s, ParseLine(greeting).value, noRecipients, token);
    assert [greeting, next][1..] == [next];
    assert [next][1..] == [];
  }

  /** A single-line EHLO reply after which AUTH and PLAIN are announced
      makes the client queue AUTH PLAIN and, the command having changed,
      write it. */
  lemma EhloAuthPlain(s: Session, r: Response, noRecipients: bool, token: string)
    requires s.state == Connecting && s.command == Ehlo && s.queue == []
    requires r.status == 250 && !r.isMultiline
    requires var c := Caps.ParseCapabilities(s.caps, r.text); Caps.Auth in c.extensions && Caps.Plain in c.authModes
    ensures Respond(s, r, noRecipients, token) ==
      (s.(caps := Caps.ParseCapabilities(s.caps, r.text), command := Auth, commandTag := s.commandTag + 1,
          written := s.written + ["AUTH PLAIN\r\n"]), Pass)
  {
    var c := Caps.ParseCapabilities(s.caps, r.text);
    var m := Move(false, c, Some(["AUTH", "PLAIN"]), false, Auth);
    DecideAuthPlain(r, s.caps, noRecipients, token);
    RespondPerforms(s, r, noRecipients, token, m);
    PerformQueuedThenChange(s, m);
    AuthPlainLine();
  }

  /** The last EHLO line "AUTH PLAIN" as it arrives, carriage return
      included, with PLAIN not announced before. With the source's parsing
      the line sets AUTH but not PLAIN, so the move goes to AUTH with
      nothing queued and the send that the change of command causes finds
      the queue empty; with the corrected parsing the client writes AUTH
      PLAIN. */
  lemma EhloAuthPlainCarriageReturn(s: Session, r: Response, m: string, noRecipients: bool, token: string)
    requires s.state == Connecting && s.command == Ehlo && s.queue == [] && Caps.Plain !in s.caps.authModes
    requires m == "PLAIN" && r.status == 250 && !r.isMultiline && r.text == "AUTH " + m + "\r"
    ensures var c := Caps.ParseCapabilitiesAsWritten(s.caps, r.text);
      Perform(s, EhloAccepted(r, c)) == (s.(caps := c, command := Auth), Fail(EmptyQueue))
    ensures Respond(s, r, noRecipients, token).0.written == s.written + ["AUTH PLAIN\r\n"]
  {
    Caps.AuthPlainCarriageReturnAsWritten(s.caps, m);
    Caps.AuthPlainCarriageReturnCorrected(s.caps, m);
    EhloAuthPlain(s, r, noRecipients, token);
  }

  /** The line "AUTH <mechanisms>" with PLAIN among the mechanisms is such a
      reply. */
  lemma AuthLineOffersPlain(caps: Caps.Capabilities, mechanisms: string)
    requires '\r' !in mechanisms && Caps.Plain in Caps.AuthModesIn(Split(mechanisms, ' '))
    ensures var c := Caps.ParseCapabilities(caps, "AUTH " + mechanisms);
      Caps.Auth in c.extensions && Caps.Plain in c.authModes
  {
    Caps.AuthLine(caps, mechanisms);
  }

  lemma RespondPerforms(s: Session, r: Response, noRecipients: bool, token: string, m: Move)
    requires s.state == Connecting && Decide(s.command, r, s.caps, noRecipients, token) == Ok(m)
    ensures Respond(s, r, noRecipients, token) == Perform(s, m)
  {
  }

  lemma DecideAuthPlain(r: Response, caps: Caps.Capabilities, noRecipients: bool, token: string)
    requires r.status == 250 && !r.isMultiline
    requires var c := Caps.ParseCapabilities(caps, r.text); Caps.Auth in c.extensions && Caps.Plain in c.authModes
    ensures Decide(Ehlo, r, caps, noRecipients, token) ==
      Ok(Move(false, Caps.ParseCapabilities(caps, r.text), Some(["AUTH", "PLAIN"]), false, Auth))
  {
  }

  /** The server's 334 challenge to AUTH: the client queues the credentials
      and writes them at once, staying at AUTH. */
  lemma AuthChallengeSendsToken(s: Session, r: Response, noRecipients: bool, token: string)
    requires s.state == Connecting && s.command == Auth && s.queue == []
    requires r.status == 334
    ensures Respond(s, r, noRecipients, token) ==
      (s.(commandTag := s.commandTag + 1, written := s.written + [token + "\r\n"]), Pass)
  {
    var m := Move(false, s.caps, Some([token]), true, Auth);
    assert Decide(s.command, r, s.caps, noRecipients, token) == Ok(m);
    PerformQueuedNow(s, m);
    assert Join([token], " ") == token;
  }

  /** The credentials decode to the NUL-separated authorisation identity,
      user and password of RFC 4616, and hold no line break. */
  lemma TokenDecodes(user: seq<Base64.byte>, password: seq<Base64.byte>)
    ensures Base64.Decode(AuthPlainToken(user, password)) ==
      Some([0 as Base64.byte] + user + [0 as Base64.byte] + password)
    ensures '\n' !in AuthPlainToken(user, password) && '\r' !in AuthPlainToken(user, password)
  {
    var data := [0 as Base64.byte] + user + [0 as Base64.byte] + password;
    Base64.DecodeEncode(data);
    Base64.EncodeAlphabet(data);
  }

  /** After 250 to MAIL the client moves to RCPT, but no command has been
      queued for it: the send that the change of command causes finds the
      queue empty. */
  lemma MailAcceptedFindsEmptyQueue(s: Session, r: Response, noRecipients: bool, token: string)
    requires s.state == Connecting && s.command == Mail && s.queue == []
    requires r.status == 250
    ensures Respond(s, r, noRecipients, token) == (s.(command := Rcpt), Fail(EmptyQueue))
  {
  }

  /** A positive reply to RCPT moves on to DATA only once no recipient is
      left; otherwise nothing changes and nothing is written. */
  lemma RcptWaitsForRecipients(s: Session, r: Response, noRecipients: bool, token: string)
    requires s.state == Connecting && s.command == Rcpt
    requires r.status == 250 || r.status == 251
    ensures !noRecipients ==> Respond(s, r, noRecipients, token) == (s, Pass)
    ensures noRecipients ==> Respond(s, r, noRecipients, token) == Execute(s.(command := Data))
  {
  }

  /** A 250 reply to DATA moves on to QUIT, and the change of command sends
      the head of the queue. */
  lemma DataAcceptedMovesToQuit(s: Session, r: Response, noRecipients: bool, token: string)
    requires s.state == Connecting && s.command == Data && r.status == 250
    ensures Respond(s, r, noRecipients, token) == Execute(s.(command := Quit))
  {
  }

  /** A server that refuses EHLO with 550 or 502 is greeted with HELO
      instead: the client moves to HELO and the change of command sends the
      head of the queue. */
  lemma EhloRefusedFallsBackToHelo(s: Session, r: Response, noRecipients: bool, token: string)
    requires s.state == Connecting && s.command == Ehlo && (r.status == 550 || r.status == 502)
    ensures Respond(s, r, noRecipients, token) == Execute(s.(command := Helo))
  {
  }

  /** A handled reply writes a line only when its move sends at once (the
      credentials after 334 to AUTH) or changes the command, and then
      exactly one line, unless the send fails; a refused reply writes
      nothing. */
  lemma WritesOnlyOnSendOrChange(s: Session, r: Response, noRecipients: bool, token: string)
    ensures var (s', o) := Respond(s, r, noRecipients, token);
      var d := Decide(s.command, r, s.caps, noRecipients, token);
      if s.state != Connecting || d.Err? then s'.written == s.written
      else
        (s'.written != s.written <==> o.Pass? && (d.value.sendNow || d.value.next != s.command)) &&
        |s'.written| <= |s.written| + 1
  {
    var d := Decide(s.command, r, s.caps, noRecipients, token);
    if s.state == Connecting && d.Ok? {
      var m := d.value;
      RespondPerforms(s, r, noRecipients, token, m);
      SendOrChange(s, m);
    }
  }

  /** A move that does not send at once and change the command writes one
      line exactly when it sends, and the send is what makes it pass or
      fail. */
  lemma SendOrChange(s: Session, m: Move)
    requires !(m.sendNow && m.next != s.command)
    ensures var (s', o) := Perform(s, m);
      (s'.written != s.written <==> o.Pass? && (m.sendNow || m.next != s.command)) &&
      |s'.written| <= |s.written| + 1
  {
  }

  /** A reply the table has no move for, or one that arrives while the
      client is not connecting, changes nothing. */
  lemma RefusedReplyChangesNothing(s: Session, r: Response, noRecipients: bool, token: string)
    requires s.state != Connecting || Decide(s.command, r, s.caps, noRecipients, token).Err?
    ensures Respond(s, r, noRecipients, token).0 == s
    ensures Respond(s, r, noRecipients, token).1 ==
      Fail(if s.state != Connecting then NotConnecting else Unhandled(s.command, r.status))
  {
  }

  /** The line written to the socket is the text-stream rendering of the
      command with CRLF in place of its final end of line. */
  lemma LineIsRendering(cmd: CommandValue)
    requires cmd.currentPart == 0 && |cmd.parts| >= 1
    ensures var t := Rendering(cmd.parts);
      Line(cmd) == t[..|t| - 1] + "\r\n"
  {
    assert Texts(cmd.parts)[0..] == Texts(cmd.parts);
  }
}
