/** Whole known_hosts files: what writing a collection puts into the file, and what reading it adds. */
module KnownHostFile {
  import opened Sequences
  import opened Base64
  import opened KnownHostEntry
  import opened KnownHostLine
  import opened KnownHostRoundTrip
  import opened KnownHostStore

  const KNOWN_HOSTS := -46

  /** The buffer of both loops, which also holds the terminating zero. */
  const BUFFER := 4092

  predicate NotNewline(c: char) { c != '\n' }

  /** What fgets takes from the front of the file: a line with its newline, or as much as the buffer holds. */
  function Fgets(text: string): (chunk: string)
    ensures |chunk| <= |text| && (text != "" ==> chunk != "")
  {
    var n := Run(NotNewline, text);
    var line := if n == |text| then text else text[..n + 1];
    if |line| > BUFFER - 1 then text[..BUFFER - 1] else line
  }

  datatype FileOutcome = FileOutcome(num: int, hosts: seq<KnownHost>)

  /** What is done with one line. */
  type LineFn = (seq<KnownHost>, string) -> LineOutcome

  /** Reads line after line, counting them, until one fails. */
  function ReadLines(read: LineFn, hosts: seq<KnownHost>, text: string, num: int): FileOutcome
    decreases |text|
  {
    if text == "" then FileOutcome(num, hosts)
    else
      var chunk := Fgets(text);
      var o := read(hosts, CString(chunk));
      if o.rc != 0 then FileOutcome(KNOWN_HOSTS, o.hosts) else ReadLines(read, o.hosts, text[|chunk|..], num + 1)
  }

  function ReadText(hosts: seq<KnownHost>, text: string): FileOutcome {
    ReadLines(ReadLine, hosts, text, 0)
  }

  /** The printed lines one after the other, up to the first entry that has none or that does not fit the buffer. */
  function FileText(entries: seq<KnownHost>): string {
    if entries == [] || !Fits(entries[0]) then ""
    else Line(entries[0]) + FileText(entries[1..])
  }

  /** The entry has a line, and the line fits the buffer. */
  predicate Fits(e: KnownHost) { TypeText(e).Some? && Encodable(e.host) && |Line(e)| < BUFFER }

  lemma ChunkIsLine(text: string)
    ensures IsLine(CString(Fgets(text)))
  {}

  lemma FgetsTakesLine(line: string, rest: string)
    requires OneLine(line) && |line| + 1 < BUFFER
    ensures Fgets(line + "\n" + rest) == line + "\n"
    ensures (line + "\n" + rest)[|line| + 1..] == rest
    ensures CString(line + "\n") == line + "\n"
  {
    var text := line + "\n" + rest;
    forall i | 0 <= i < |line|
      ensures NotNewline(text[i]) && NotZero(text[i])
    {
      assert line[i] in line;
    }
    RunIs(NotNewline, text, |line|);
    assert text[..|line| + 1] == line + "\n";
    forall i | 0 <= i < |line| + 1
      ensures NotZero((line + "\n")[i])
    {
      if i < |line| {
        assert line[i] in line;
      }
    }
    RunIs(NotZero, line + "\n", |line| + 1);
  }

  lemma LineEnds(e: KnownHost) returns (front: string)
    requires Printable(e)
    ensures OneLine(front) && Line(e) == front + "\n"
  {
    PrintableHostText(e);
    KeyPartIsOneLine(e);
    OneLineConcat(" ", KeyPart(e));
    OneLineConcat(HostText(e.host), " " + KeyPart(e));
    front := HostText(e.host) + (" " + KeyPart(e));
  }

  lemma ChunkRead(read: LineFn, hosts: seq<KnownHost>, line: string, rest: string, num: int, o: LineOutcome)
    requires OneLine(line) && |line| + 1 < BUFFER
    requires read(hosts, line + "\n") == o && o.rc == 0
    ensures ReadLines(read, hosts, line + "\n" + rest, num) == ReadLines(read, o.hosts, rest, num + 1)
  {
    FgetsTakesLine(line, rest);
  }

  lemma EntryRead(hosts: seq<KnownHost>, e: KnownHost, rest: string, num: int)
    requires Printable(e) && Storable(e) && Fits(e)
    ensures ReadLines(ReadLine, hosts, Line(e) + rest, num) == ReadLines(ReadLine, hosts + [e], rest, num + 1)
  {
    var front := LineEnds(e);
    ReadUndoesWrite(hosts, e);
    ChunkRead(ReadLine, hosts, front, rest, num, LineOutcome(0, hosts + [e]));
  }

  ghost predicate Keepable(e: KnownHost) { Fits(e) && Printable(e) && Storable(e) }

  lemma {:induction false} LinesRead(hosts: seq<KnownHost>, entries: seq<KnownHost>, num: int)
    requires forall e <- entries :: Keepable(e)
    ensures ReadLines(ReadLine, hosts, FileText(entries), num) == FileOutcome(num + |entries|, hosts + entries)
    decreases |entries|
  {
    if entries == [] {
      assert hosts + entries == hosts;
    } else {
      var e, rest := entries[0], entries[1..];
      assert Keepable(e);
      MoveFirst(hosts, entries);
      LinesRead(hosts + [e], rest, num + 1);
      EntryRead(hosts, e, FileText(rest), num);
    }
  }

  /** Reading a written file adds exactly the entries that were written, in their order, and counts them. */
  lemma ReadFileUndoesWriteFile(hosts: seq<KnownHost>, entries: seq<KnownHost>)
    requires forall e <- entries :: Keepable(e)
    ensures ReadText(hosts, FileText(entries)) == FileOutcome(|entries|, hosts + entries)
  {
    LinesRead(hosts, entries, 0);
  }

  /** Reads a file, given by its text, into the collection. */
  method Readfile(store: KnownHosts, text: string, fileType: int) returns (num: int)
    modifies store
    ensures if fileType == FILE_OPENSSH then FileOutcome(num, store.hosts) == ReadText(old(store.hosts), text)
            else num == METHOD_NOT_SUPPORTED && store.hosts == old(store.hosts)
  {
    hide ReadLines, ReadLine, Fgets, CString;
    if fileType != FILE_OPENSSH {
      return METHOD_NOT_SUPPORTED;
    }
    num := 0;
    var at := 0;
    ghost var whole := ReadText(store.hosts, text);
    assert text[0..] == text;
    while at < |text|
      invariant 0 <= at <= |text|
      invariant ReadLines(ReadLine, store.hosts, text[at..], num) == whole
    {
      var chunk := Fgets(text[at..]);
      ChunkIsLine(text[at..]);
      ReadFirst(ReadLine, store.hosts, text, at, num);
      var rc := store.Readline(CString(chunk), fileType);
      if rc != 0 {
        return KNOWN_HOSTS;
      }
      num := num + 1;
      at := at + |chunk|;
    }
    assert text[at..] == "";
    ReadNone(ReadLine, store.hosts, num);
  }

  lemma ReadFirst(read: LineFn, hosts: seq<KnownHost>, text: string, at: nat, num: int)
    requires at < |text|
    ensures
      var chunk := Fgets(text[at..]);
      var o := read(hosts, CString(chunk));
      && at + |chunk| <= |text|
      && ReadLines(read, hosts, text[at..], num)
         == if o.rc != 0 then FileOutcome(KNOWN_HOSTS, o.hosts)
            else ReadLines(read, o.hosts, text[at + |chunk|..], num + 1)
  {
    assert text[at..][|Fgets(text[at..])|..] == text[at + |Fgets(text[at..])|..];
  }

  lemma ReadNone(read: LineFn, hosts: seq<KnownHost>, num: int)
    ensures ReadLines(read, hosts, "", num) == FileOutcome(num, hosts)
  {}

  /** The entries as the printer finds them. */
  function AllKept(entries: seq<KnownHost>, behind: nat -> Behind): (kept: seq<KnownHost>)
    ensures |kept| == |entries|
    ensures forall i | 0 <= i < |entries| :: kept[i] == Kept(entries[i], behind(i))
  {
    seq(|entries|, i requires 0 <= i < |entries| => Kept(entries[i], behind(i)))
  }

  /** Writes the entries, in their order, until one has no line or is too long for the buffer. A comment that is cut at
      a zero leaves the length as it was, so that stale bytes of the buffer follow its line. */
  method Writefile(entries: seq<KnownHost>, behind: nat -> Behind, fileType: int) returns (rc: int, text: string)
    ensures fileType != FILE_OPENSSH ==> rc == METHOD_NOT_SUPPORTED && text == ""
    ensures fileType == FILE_OPENSSH ==> (rc == 0 <==> forall e <- AllKept(entries, behind) :: Fits(e))
    ensures fileType == FILE_OPENSSH && (forall e <- AllKept(entries, behind) :: Shown(e) == e) ==>
              text == FileText(AllKept(entries, behind))
  {
    hide Shown, Fits, Line, HostText, CString, Kept;
    rc, text := 0, "";
    if fileType != FILE_OPENSSH {
      return METHOD_NOT_SUPPORTED, "";
    }
    ghost var kept := AllKept(entries, behind);
    ghost var whole := forall e <- kept :: Shown(e) == e;
    var buffer := new char[BUFFER];
    var i := 0;
    while i < |entries|
      invariant 0 <= i <= |entries|
      invariant whole ==> text + FileText(kept[i..]) == FileText(kept)
      invariant rc == 0
      invariant forall e <- kept[..i] :: Fits(e)
    {
      var wrote: Option<nat>;
      assert kept[i] in kept;
      FitsMeans(kept[i]);
      KeptType(entries[i], behind(i));
      rc, wrote := Writeline(entries[i], behind(i), buffer, fileType);
      assert kept[i..][1..] == kept[i + 1..];
      if rc != 0 {
        assert !Fits(kept[i]);
        return rc, text;
      }
      WrittenFirst(text, kept[i], FileText(kept[i + 1..]));
      text := text + buffer[..wrote.value];
      i := i + 1;
    }
    assert kept[..i] == kept;
  }

  lemma FitsMeans(e: KnownHost)
    ensures Fits(e) <==> TypeText(e).Some? && Encodable(e.host) && |Line(e)| < BUFFER
  {}

  lemma WrittenFirst(text: string, e: KnownHost, rest: string)
    requires Fits(e)
    ensures text + Line(e) + rest == text + (Line(e) + rest)
  {}
}
