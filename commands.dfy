/** SMTP commands as the client builds them before they are queued: a list of
    parts (only atoms exist), the index of the part to send next and a tag. */
module Commands {
  import opened Text

  datatype TokenType = Atom

  datatype PartOfCommand = PartOfCommand(kind: TokenType, text: string)

  /** A command as it sits in the client's queue (the queue holds copies). */
  datatype CommandValue = CommandValue(parts: seq<PartOfCommand>, currentPart: int, tag: int)

  function Texts(parts: seq<PartOfCommand>): (r: seq<string>)
    ensures |r| == |parts|
    ensures forall i :: 0 <= i < |parts| ==> r[i] == parts[i].text
  {
    if parts == [] then [] else [parts[0].text] + Texts(parts[1..])
  }

  /** The text a command writes to a text stream: its parts separated by
      single spaces, then an end of line. */
  function Rendering(parts: seq<PartOfCommand>): string
  {
    Join(Texts(parts), " ") + "\n"
  }

  /** A command under construction. Appending parts and setting the tag
      change the object in place. */
  class Command {
    var parts: seq<PartOfCommand>
    var currentPart: int
    var tag: int

    /** A command with no parts yet. */
    constructor ()
      ensures parts == [] && currentPart == 0
    {
      parts := [];
      currentPart := 0;
      tag := 0;
    }

    /** A command whose first part is its name. */
    constructor Named(name: string)
      ensures parts == [PartOfCommand(Atom, name)] && currentPart == 0
    {
      parts := [PartOfCommand(Atom, name)];
      currentPart := 0;
      tag := 0;
    }

    /** Appends a part; the result is the same command, for chaining. */
    method AppendPart(part: PartOfCommand) returns (self: Command)
      modifies this
      ensures self == this
      ensures parts == old(parts) + [part]
      ensures currentPart == old(currentPart) && tag == old(tag)
    {
      parts := parts + [part];
      self := this;
    }

    /** Appends raw text as an atom. */
    method Append(text: string) returns (self: Command)
      modifies this
      ensures self == this
      ensures parts == old(parts) + [PartOfCommand(Atom, text)]
      ensures currentPart == old(currentPart) && tag == old(tag)
    {
      self := AppendPart(PartOfCommand(Atom, text));
    }

    method AddTag(t: int)
      modifies this
      ensures tag == t
      ensures parts == old(parts) && currentPart == old(currentPart)
    {
      tag := t;
    }

    /** The copy that the client's queue stores. */
    function Value(): CommandValue
      reads this
    {
      CommandValue(parts, currentPart, tag)
    }
  }

  /** Writes every part of the command in order, a space before each part but
      the first, then an end of line. */
  method WriteCommand(cmd: CommandValue) returns (out: string)
    ensures out == Rendering(cmd.parts)
  {
    var texts := Texts(cmd.parts);
    out := "";
    var i := 0;
    while i < |texts|
      invariant 0 <= i <= |texts|
      invariant i == 0 ==> out == ""
      invariant 0 < i ==> out == Join(texts[..i], " ")
    {
      if i != 0 {
        out := out + " ";
      }
      JoinSnoc(texts[..i], texts[i], " ");
      assert texts[..i + 1] == texts[..i] + [texts[i]];
      out := out + texts[i];
      i := i + 1;
    }
    assert texts[..i] == texts;
    out := out + "\n";
  }

  /** Joining one more part adds the separator and that part at the end. */
  lemma {:induction false} JoinSnoc(parts: seq<string>, last: string, sep: string)
    ensures Join(parts + [last], sep) == if parts == [] then last else Join(parts, sep) + sep + last
    decreases |parts|
  {
    if |parts| > 1 {
      assert (parts + [last])[1..] == parts[1..] + [last];
      JoinSnoc(parts[1..], last, sep);
    } else if |parts| == 1 {
      assert (parts + [last])[1..] == [last];
    }
  }

  /** The rendering ends with exactly one end of line, and splitting what
      precedes it at spaces gives back the parts when no part holds a space
      or an end of line. */
  lemma RenderingRoundTrip(parts: seq<PartOfCommand>)
    requires |parts| >= 1
    requires forall i :: 0 <= i < |parts| ==> ' ' !in parts[i].text && '\n' !in parts[i].text
    ensures var r := Rendering(parts);
      r[|r| - 1] == '\n' && '\n' !in r[..|r| - 1] &&
      Split(r[..|r| - 1], ' ') == Texts(parts)
  {
    var texts := Texts(parts);
    var r := Rendering(parts);
    assert r[..|r| - 1] == Join(texts, " ");
    SplitJoin(texts, ' ');
    JoinAvoids(texts, " ", '\n');
  }

  /** A join holds a character only when a part or the separator holds it. */
  lemma {:induction false} JoinAvoids(parts: seq<string>, sep: string, c: char)
    requires c !in sep
    requires forall i :: 0 <= i < |parts| ==> c !in parts[i]
    ensures c !in Join(parts, sep)
    decreases |parts|
  {
    if |parts| > 1 {
      JoinAvoids(parts[1..], sep, c);
    }
  }
}
