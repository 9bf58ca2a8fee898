/** The submission driver: it stores the message to send, holds the send
    back until a password is known when the account authenticates, and then
    hands the credentials and the message to the SMTP client. Signals it
    emits are recorded in an event trace. */
module Smtp {
  import opened Outcomes
  import SmtpClient
  import DotStuffing
  import Base64

  datatype SendingMode = Invalid | DataMode | Burl

  /** The signals the driver emits, in order. */
  datatype Event =
    | ProgressMax(max: int)
    | Progress(done: int)
    | ConnectingStarted
    | PasswordRequested(user: seq<Base64.byte>, host: string)
    | Sending
    | Error(message: string)

  /** The send stops at the unimplemented STARTTLS step. */
  datatype DriverFailure = StartTlsUnsupported

  /** The client's submission parameters: user, password, sender,
      recipients and body. */
  type Params = (seq<Base64.byte>, seq<Base64.byte>, string, seq<string>, string)

  /** What the continuation hands to the client: the credentials when the
      account authenticates, the sender, the recipients and the dot-stuffed
      body when the message is sent as data. */
  function HandOver(p: Params, auth: bool, user: seq<Base64.byte>, pass: seq<Base64.byte>,
                    mode: SendingMode, from: string, to: seq<string>, data: string): Params
  {
    var (u, w) := if auth then (user, pass) else (p.0, p.1);
    if mode == DataMode then (u, w, "<" + from + ">", p.3 + SmtpClient.Bracketed(to), DotStuffing.Stuff(data))
    else (u, w, p.2, p.3, p.4)
  }

  /** The client gets the sender in angle brackets, every recipient in
      angle brackets after those it already had, and a body from which the
      original is recovered by undoing the stuffing. */
  lemma HandOverData(p: Params, auth: bool, user: seq<Base64.byte>, pass: seq<Base64.byte>,
                     from: string, to: seq<string>, data: string)
    ensures var q := HandOver(p, auth, user, pass, DataMode, from, to, data);
      q.2 == "<" + from + ">" &&
      |q.3| == |p.3| + |to| && q.3[..|p.3|] == p.3 &&
      (forall i :: 0 <= i < |to| ==> q.3[|p.3| + i] == "<" + to[i] + ">") &&
      DotStuffing.Unstuff(q.4) == data
  {
    DotStuffing.UnstuffStuff(data);
    var q := HandOver(p, auth, user, pass, DataMode, from, to, data);
    assert q.3[..|p.3|] == p.3;
  }

  /** Credentials reach the client exactly when the account authenticates,
      and a BURL send hands over no message. */
  lemma HandOverCredentials(p: Params, auth: bool, user: seq<Base64.byte>, pass: seq<Base64.byte>,
                            mode: SendingMode, from: string, to: seq<string>, data: string)
    ensures var q := HandOver(p, auth, user, pass, mode, from, to, data);
      (auth ==> q.0 == user && q.1 == pass) && (!auth ==> q.0 == p.0 && q.1 == p.1) &&
      (mode != DataMode ==> (q.2, q.3, q.4) == (p.2, p.3, p.4))
  {
  }

  class Driver {
    const host: string
    const startTls: bool
    const auth: bool
    const user: seq<Base64.byte>
    const client: SmtpClient.Client

    var failed: bool
    var isWaitingForPassword: bool
    var sendingMode: SendingMode
    var from: string
    var to: seq<string>
    var data: string
    var pass: seq<Base64.byte>
    var events: seq<Event>

    /** The driver only waits for a password it needs and does not have,
      with a message ready to go. */
    predicate Valid()
      reads this
    {
      isWaitingForPassword ==> auth && pass == [] && sendingMode != Invalid
    }

    /** A driver that has sent nothing, with a new client. The port and the
      choice of an encrypted connection only select the socket factory. */
    constructor (host: string, startTls: bool, auth: bool, user: seq<Base64.byte>)
      ensures this.host == host && this.startTls == startTls && this.auth == auth && this.user == user
      ensures !failed && !isWaitingForPassword && sendingMode == Invalid
      ensures from == "" && to == [] && data == "" && pass == [] && events == []
      ensures fresh(client) && client.Snapshot() == SmtpClient.Session(SmtpClient.Disconnected, SmtpClient.Init, SmtpClient.Caps.NoCapabilities, 0, [], [])
      ensures Valid()
    {
      this.host := host;
      this.startTls := startTls;
      this.auth := auth;
      this.user := user;
      client := new SmtpClient.Client();
      failed := false;
      isWaitingForPassword := false;
      sendingMode := Invalid;
      from := "";
      to := [];
      data := "";
      pass := [];
      events := [];
    }

    /** BURL is always reported as supported. */
    function SupportsBurl(): (supported: bool)
      ensures supported
    {
      true
    }

    /** Stores the password and continues a send that waits for it. */
    method SetPassword(password: seq<Base64.byte>) returns (outcome: Outcome<DriverFailure>)
      requires Valid()
      modifies this, client
      ensures Valid()
      ensures pass == password && !isWaitingForPassword
      ensures from == old(from) && to == old(to) && sendingMode == old(sendingMode)
      ensures var go := old(isWaitingForPassword);
        data == (if go && old(sendingMode) == DataMode then DotStuffing.Stuff(old(data)) else old(data)) &&
        failed == old(failed) &&
        events == old(events) + (if go then [Sending] else []) &&
        client.Params() == (if go then HandOver(old(client.Params()), auth, user, password, old(sendingMode), from, to, old(data))
                            else old(client.Params())) &&
        client.Snapshot() == (if go then old(client.Snapshot()).(state := if startTls then SmtpClient.Connecting else SmtpClient.Disconnected)
                              else old(client.Snapshot())) &&
        outcome == (if go && startTls then Fail(StartTlsUnsupported) else Pass)
    {
      pass := password;
      outcome := Pass;
      if isWaitingForPassword {
        outcome := SendContinueGotPassword();
      }
    }

    /** Stores a message to send as data and continues at once when no
      password is needed or one is known; otherwise asks for one and waits. */
    method SendMail(f: string, t: seq<string>, d: string) returns (outcome: Outcome<DriverFailure>)
      requires Valid()
      modifies this, client
      ensures Valid()
      ensures from == f && to == t && sendingMode == DataMode && pass == old(pass) && failed == old(failed)
      ensures var go := !auth || pass != [];
        isWaitingForPassword == !go &&
        data == (if go then DotStuffing.Stuff(d) else d) &&
        events == old(events) + [ProgressMax(|d|), Progress(0), ConnectingStarted] +
          (if go then [Sending] else [PasswordRequested(user, host)]) &&
        client.Params() == (if go then HandOver(old(client.Params()), auth, user, pass, DataMode, f, t, d)
                            else old(client.Params())) &&
        client.Snapshot() == (if go then old(client.Snapshot()).(state := if startTls then SmtpClient.Connecting else SmtpClient.Disconnected)
                              else old(client.Snapshot())) &&
        outcome == (if go && startTls then Fail(StartTlsUnsupported) else Pass)
    {
      from := f;
      to := t;
      data := d;
      sendingMode := DataMode;
      isWaitingForPassword := true;
      events := events + [ProgressMax(|d|), Progress(0), ConnectingStarted];
      if !auth || pass != [] {
        outcome := SendContinueGotPassword();
        return;
      }
      events := events + [PasswordRequested(user, host)];
      outcome := Pass;
    }

    /** The same as `SendMail` for a message the server fetches by URL: the
      URL is stored as the data and the progress maximum is one. */
    method SendBurl(f: string, t: seq<string>, imapUrl: string) returns (outcome: Outcome<DriverFailure>)
      requires Valid()
      modifies this, client
      ensures Valid()
      ensures from == f && to == t && data == imapUrl && sendingMode == Burl && pass == old(pass) && failed == old(failed)
      ensures var go := !auth || pass != [];
        isWaitingForPassword == !go &&
        events == old(events) + [ProgressMax(1), Progress(0), ConnectingStarted] +
          (if go then [Sending] else [PasswordRequested(user, host)]) &&
        client.Params() == (if go then HandOver(old(client.Params()), auth, user, pass, Burl, f, t, imapUrl)
                            else old(client.Params())) &&
        client.Snapshot() == (if go then old(client.Snapshot()).(state := if startTls then SmtpClient.Connecting else SmtpClient.Disconnected)
                              else old(client.Snapshot())) &&
        outcome == (if go && startTls then Fail(StartTlsUnsupported) else Pass)
    {
      from := f;
      to := t;
      data := imapUrl;
      sendingMode := Burl;
      isWaitingForPassword := true;
      events := events + [ProgressMax(1), Progress(0), ConnectingStarted];
      if !auth || pass != [] {
        outcome := SendContinueGotPassword();
        return;
      }
      events := events + [PasswordRequested(user, host)];
      outcome := Pass;
    }

    /** The send itself: credentials to the client when the account
      authenticates, the message when it goes as data (the client stuffs
      the driver's own copy of the body), a failure for an unknown mode,
      then connecting and closing the connection. The STARTTLS step is not
      implemented and stops the send. */
    method SendContinueGotPassword() returns (outcome: Outcome<DriverFailure>)
      modifies this, client
      ensures !isWaitingForPassword
      ensures failed == (old(failed) || old(sendingMode) == Invalid)
      ensures from == old(from) && to == old(to) && pass == old(pass) && sendingMode == old(sendingMode)
      ensures data == if old(sendingMode) == DataMode then DotStuffing.Stuff(old(data)) else old(data)
      ensures events == old(events) + [Sending] + (if old(sendingMode) == Invalid then [Error("Unknown SMTP mode")] else [])
      ensures client.Params() == HandOver(old(client.Params()), auth, user, pass, sendingMode, from, to, old(data))
      ensures client.Snapshot() == old(client.Snapshot()).(state := if startTls then SmtpClient.Connecting else SmtpClient.Disconnected)
      ensures outcome == if startTls then Fail(StartTlsUnsupported) else Pass
    {
      isWaitingForPassword := false;
      if auth {
        client.SetAuthParams(user, pass);
      }
      events := events + [Sending];
      match sendingMode {
        case DataMode =>
          data := client.SetMailParams(from, to, data);
        case Burl =>
        case Invalid =>
          failed := true;
          events := events + [Error("Unknown SMTP mode")];
      }
      client.DoConnect();
      if startTls {
        return Fail(StartTlsUnsupported);
      }
      client.CloseConnection();
      outcome := Pass;
    }
  }
}
