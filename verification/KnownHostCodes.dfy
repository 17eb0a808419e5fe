/** What the known-hosts operations refuse, pass over and stop at, and with which code. */
module KnownHostCodes {
  import opened Sequences
  import opened Words
  import opened Base64
  import opened KnownHostEntry
  import opened KnownHostLine
  import opened KnownHostRoundTrip
  import opened KnownHostStore
  import opened KnownHostFile

  // Adding.

  /** When adding fails, in the order in which it is found out: without a key type, with an unknown form of name, with a
      hash or salt that is not base64, with a raw key of no bytes. */
  lemma AddCodes(format: NameFormat, host: string, salt: string, typeName: Option<string>, key: KeyText,
                 comment: Option<string>, keyType: KeyType)
    ensures var r := Stored(format, host, salt, typeName, key, comment, keyType);
            && (keyType == Unset ==> r == Err(-34))
            && (keyType != Unset && format == AsOther ==> r == Err(-33))
            && (keyType != Unset && format == AsSha1 && (Decode(host).None? || Decode(salt).None?) ==> r == Err(-34))
            && (r.Err? && r.rc != -33 && r.rc != -34 ==> r.rc == -6)
            && (r == Err(-6) ==> key.Raw? && key.bytes == [] && key.behind == [])
            && (r.Ok? <==> && keyType != Unset && format != AsOther
                           && (format == AsSha1 ==> Decode(host).Some? && Decode(salt).Some?)
                           && (key.Raw? ==> key.bytes != [] || key.behind != []))
  {}

  /** What is added is what was given, the type name only for a type that needs it. */
  lemma AddedIs(format: NameFormat, host: string, salt: string, typeName: Option<string>, key: KeyText,
                comment: Option<string>, keyType: KeyType)
    requires Stored(format, host, salt, typeName, key, comment, keyType).Ok?
    ensures var e := Stored(format, host, salt, typeName, key, comment, keyType).value;
            && e.keyType == keyType && e.comment == comment
            && e.typeName == (if keyType == Unknown then typeName else None)
            && (key.Encoded? ==> e.key == key.text)
            && (key.Raw? ==> e.key == Encode(if key.bytes == [] then key.behind else key.bytes))
            && (format == AsPlain ==> e.host == Plain(host)) && (format == AsCustom ==> e.host == Custom(host))
            && (format == AsSha1 ==> e.host.Hashed? && Decode(host) == Some(e.host.hash)
                                     && Decode(salt) == Some(e.host.salt))
  {}

  // Lines.

  /** A line of blanks, and one whose first other character is a newline or begins a comment, adds nothing. */
  lemma NothingOnLine(hosts: seq<KnownHost>, line: string, k: nat)
    requires k <= |line| && forall i | 0 <= i < k :: line[i] == ' ' || line[i] == '\t'
    requires k < |line| ==> line[k] == '#' || line[k] == '\n'
    ensures ReadLine(hosts, line) == LineOutcome(0, hosts)
  {
    TrimmedAt(line, 0, k);
    assert line[0..] == line;
  }

  /** A line that is a host alone, or whose key part has fewer than twenty characters, is refused. */
  lemma ShortLineIsRefused(hosts: seq<KnownHost>, host: string, part: string)
    requires host != "" && AllVisible(host) && host[0] != '#' && OneLine(host) && |Trimmed(part)| < 20
    ensures ReadLine(hosts, Assembled(host, part)) == LineOutcome(-33, hosts)
  {
    hide ReadLine;
    SplitLine(hosts, host, part);
  }

  /** A name that does not fit the buffer stops the names, and those before it stay. */
  lemma {:induction false} LongNameStops(hosts: seq<KnownHost>, names: seq<string>, f: KeyFields, k: nat)
    requires k < |names| && |names[k]| >= 255 && forall i | 0 <= i < k :: |names[i]| < 255
    ensures var o := AddNames(hosts, names, f);
            o.rc == -33 && |o.hosts| == |hosts| + k && hosts <= o.hosts
            && forall i | 0 <= i < k :: o.hosts[|hosts| + i] == Entry(Plain(names[i]), f)
    decreases k
  {
    if k > 0 {
      var hosts' := hosts + [Entry(Plain(names[0]), f)];
      LongNameStops(hosts', names[1..], f, k - 1);
      var o := AddNames(hosts, names, f);
      forall i | 0 <= i < k
        ensures o.hosts[|hosts| + i] == Entry(Plain(names[i]), f)
      {
        if i > 0 {
          assert o.hosts[|hosts'| + (i - 1)] == Entry(Plain(names[1..][i - 1]), f);
        } else {
          assert o.hosts[|hosts|] == hosts'[|hosts|];
        }
      }
    }
  }

  // Files.

  /** What is read at a time: at most 4091 characters, as far as the first newline and with it. */
  lemma FgetsIs(text: string)
    ensures var chunk := Fgets(text);
            && chunk <= text && |chunk| <= 4091
            && (forall i | 0 <= i < |chunk| - 1 :: chunk[i] != '\n')
            && (|chunk| == |text| || |chunk| == 4091 || (|chunk| > 0 && chunk[|chunk| - 1] == '\n'))
  {}

  /** The first line that is refused ends the reading with -46; what the lines before it and it itself added stays. */
  lemma RefusedLineStops(hosts: seq<KnownHost>, line: string, rest: string)
    requires OneLine(line) && |line| + 1 < BUFFER && ReadLine(hosts, line + "\n").rc != 0
    ensures ReadText(hosts, line + "\n" + rest) == FileOutcome(-46, ReadLine(hosts, line + "\n").hosts)
  {
    hide ReadLine, Fgets, CString;
    FgetsTakesLine(line, rest);
  }

  /** A line that is not counts as one, and the reading goes on behind it. */
  lemma GoodLineCounts(hosts: seq<KnownHost>, line: string, rest: string)
    requires OneLine(line) && |line| + 1 < BUFFER && ReadLine(hosts, line + "\n").rc == 0
    ensures var later := ReadText(ReadLine(hosts, line + "\n").hosts, rest);
            ReadText(hosts, line + "\n" + rest)
            == FileOutcome(if later.num == -46 then -46 else later.num + 1, later.hosts)
  {
    hide ReadLine, Fgets, CString;
    FgetsTakesLine(line, rest);
    CountsOn(ReadLine, ReadLine(hosts, line + "\n").hosts, rest, 0);
  }

  lemma {:induction false} CountsOn(read: LineFn, hosts: seq<KnownHost>, text: string, num: nat)
    ensures var a, b := ReadLines(read, hosts, text, num), ReadLines(read, hosts, text, num + 1);
            && a.hosts == b.hosts && (a.num == -46 || a.num >= num)
            && b.num == if a.num == -46 then -46 else a.num + 1
    decreases |text|
  {
    hide Fgets, CString;
    if text != "" {
      var chunk := Fgets(text);
      var o := read(hosts, CString(chunk));
      if o.rc == 0 {
        CountsOn(read, o.hosts, text[|chunk|..], num + 1);
      }
    }
  }

  /** An empty file adds nothing. */
  lemma EmptyFile(hosts: seq<KnownHost>)
    ensures ReadText(hosts, "") == FileOutcome(0, hosts)
  {}
}
