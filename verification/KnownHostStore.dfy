/** The known-hosts collection: the list the library keeps and the operations on it. */
module KnownHostStore {
  import opened Sequences
  import opened Words
  import opened Base64
  import opened KnownHostEntry
  import opened KnownHostLine
  import opened HostNames
  import opened KnownHostRoundTrip

  const FILE_OPENSSH := 1
  const BUFFER_TOO_SMALL := -38

  /** The character a C string shows at that position. */
  function At(s: string, i: nat): char {
    if i < |s| then s[i] else '\0'
  }

  class KnownHosts {
    var hosts: seq<KnownHost>

    method Add(format: NameFormat, host: string, salt: string, typeName: Option<string>,
               key: KeyText, comment: Option<string>, keyType: KeyType) returns (rc: int)
      modifies this
      ensures
        match Stored(format, host, salt, typeName, key, comment, keyType)
        case Ok(entry) => rc == 0 && hosts == old(hosts) + [entry]
        case Err(code) => rc == code && hosts == old(hosts)
    {
      if keyType == Unset {
        return INVAL;
      }
      var name: HostName;
      match format {
        case AsPlain => name := Plain(host);
        case AsCustom => name := Custom(host);
        case AsSha1 =>
          var hash := DecodeString(host);
          if hash.None? {
            return INVAL;
          }
          var salted := DecodeString(salt);
          if salted.None? {
            return INVAL;
          }
          name := Hashed(hash.value, salted.value);
        case AsOther =>
          return METHOD_NOT_SUPPORTED;
      }
      var text: string;
      match key {
        case Encoded(given) => text := given;
        case Raw(bytes, behind) =>
          text := EncodeBytes(bytes, behind);
          EncodeShape(Measured(bytes, behind));
          if |text| == 0 {
            return ALLOC;
          }
      }
      var entry := KnownHost(name, keyType, text, if keyType == Unknown then typeName else None, comment);
      hosts := hosts + [entry];
      return 0;
    }

    /** The names of the host part, taken from its end. */
    method OldstyleHostline(host: string, typeName: Option<string>, key: string, comment: Option<string>,
                            keyType: KeyType) returns (rc: int)
      requires keyType != Unset
      modifies this
      ensures LineOutcome(rc, hosts) ==
              OldstyleLine(old(hosts), host,
                           KeyFields(keyType, if keyType == Unknown then typeName else None, key, comment))
    {
      hide RightSplit, LastComma, AddNames;
      rc := 0;
      ghost var f := KeyFields(keyType, if keyType == Unknown then typeName else None, key, comment);
      if |host| < 1 {
        return METHOD_NOT_SUPPORTED;
      }
      assert host[..|host|] == host;
      var namelen := 0;
      var name := |host|;
      ghost var stop := |host|;
      ghost var left := RightSplit(host);
      while name > 0
        invariant 0 <= name <= stop <= |host|
        invariant if name > 0 then stop == name + namelen else stop == 0
        invariant namelen >= 0
        invariant forall i | 0 <= i && name - 1 <= i < stop - 1 :: host[i] != ','
        invariant rc == 0 && left == RightSplit(host[..stop])
        invariant AddNames(hosts, left, f) == AddNames(old(hosts), RightSplit(host), f)
      {
        name := name - 1;
        namelen := namelen + 1;
        if name == 0 || host[name - 1] == ',' {
          TakeName(host, stop, name);
          AddFirst(hosts, left, f);
          if namelen >= 255 {
            return METHOD_NOT_SUPPORTED;
          }
          StoredPlain(host[name..stop], typeName, f);
          rc := Add(AsPlain, host[name..name + namelen], "", typeName, Encoded(key), comment, keyType);
          left := left[1..];
          if name > 0 {
            namelen := 0;
            name := name - 1; // skip the comma
          }
          stop := name;
        }
      }
      AddNone(hosts, f);
    }

    /** A marked host part; text starts at the host and ends where the line ends. */
    method HashedHostline(text: string, hostlen: nat, typeName: Option<string>, key: string,
                          comment: Option<string>, keyType: KeyType) returns (rc: int)
      requires 3 <= |text| && hostlen <= |text| && keyType != Unset
      modifies this
      ensures LineOutcome(rc, hosts) ==
              HashedLine(old(hosts), text, hostlen,
                         KeyFields(keyType, if keyType == Unknown then typeName else None, key, comment))
    {
      var salt := 3;
      var p := salt;
      while p < |text| && text[p] != '|'
        invariant salt <= p <= |text|
        invariant forall i | salt <= i < p :: text[i] != '|'
      {
        p := p + 1;
      }
      RunIs(NotBar, text[salt..], p - salt);
      if p == |text| {
        return 0;
      }
      var saltlen := p - salt;
      if saltlen >= 31 {
        return METHOD_NOT_SUPPORTED;
      }
      var hash := p + 1;
      var remaining := hostlen - 3 - (saltlen + 1);
      // a difference below zero wraps around to a length that is far too large
      if remaining < 0 || remaining >= 255 {
        return METHOD_NOT_SUPPORTED;
      }
      assert text[hash..hash + remaining] == text[salt..][saltlen + 1..][..remaining];
      assert text[salt..p] == text[salt..][..saltlen];
      rc := Add(AsSha1, text[hash..hash + remaining], text[salt..p], typeName, Encoded(key), comment, keyType);
    }

    /** One line, already split; the key part starts keyp characters after the host and is followed by tail. */
    method Hostline(text: string, hostlen: nat, keyp: nat, keylen: nat) returns (rc: int)
      requires hostlen + 1 <= keyp && keyp + keylen <= |text|
      requires text[keyp + keylen..] == "" || text[keyp + keylen..] == "\n"
      modifies this
      ensures LineOutcome(rc, hosts)
           == HostLine(old(hosts), text, hostlen, text[keyp..keyp + keylen], text[keyp + keylen..])
    {
      if keylen < 20 {
        return METHOD_NOT_SUPPORTED;
      }
      var typeName, key, comment, keyType := SplitKey(text[keyp..keyp + keylen], text[keyp + keylen..]);
      if hostlen > 2 && text[..3] != MARKER {
        rc := OldstyleHostline(text[..hostlen], typeName, key, comment, keyType);
      } else {
        rc := HashedHostline(text, hostlen, typeName, key, comment, keyType);
      }
    }

    /** Reads one line of a known_hosts file into the collection. */
    method Readline(line: string, fileType: int) returns (rc: int)
      requires IsLine(line)
      modifies this
      ensures if fileType == FILE_OPENSSH then LineOutcome(rc, hosts) == ReadLine(old(hosts), line)
              else rc == METHOD_NOT_SUPPORTED && hosts == old(hosts)
    {
      hide HostLine, Run, Trimmed;
      if fileType != FILE_OPENSSH {
        return METHOD_NOT_SUPPORTED;
      }
      var cp, len := 0, |line|;
      while len > 0 && Blank(line[cp])
        invariant 0 <= cp && cp + len == |line| && len >= 0
        invariant forall i | 0 <= i < cp :: Blank(line[i])
      {
        cp, len := cp + 1, len - 1;
      }
      TrimmedAt(line, 0, cp);
      if len == 0 || line[cp] == '\0' || line[cp] == '#' || line[cp] == '\n' {
        return 0;
      }
      var text := line[cp..];
      var hostlen, keyp, keylen := SplitHost(text);
      if keylen == 0 {
        return METHOD_NOT_SUPPORTED;
      }
      SuffixIsLine(line, cp);
      keylen := KeyLength(text, keyp);
      ghost var key := text[keyp..];
      assert ReadLine(hosts, line) == HostLine(hosts, text, hostlen, key[..|key| - |Tail(key)|], Tail(key));
      rc := Hostline(text, hostlen, keyp, keylen);
    }
  }

  // Printing.

  /** What memory holds, up to the first zero, where an empty hash and an empty salt are kept. */
  datatype Behind = Behind(hash: seq<byte>, salt: seq<byte>)

  /** The entry as the printer finds it: the encoder measures an empty hash or salt itself. */
  function Kept(e: KnownHost, behind: Behind): KnownHost { e.(host := KeptHost(e.host, behind)) }

  function KeptHost(host: HostName, behind: Behind): HostName {
    match host
    case Hashed(hash, salt) => Hashed(Measured(hash, behind.hash), Measured(salt, behind.salt))
    case _ => host
  }

  predicate Encodable(host: HostName) { host.Hashed? ==> host.hash != [] && host.salt != [] }

  /** The entry as the formats show it: the comment ends at its first zero. */
  function Shown(e: KnownHost): KnownHost {
    if e.comment.Some? then e.(comment := Some(CString(e.comment.value))) else e
  }

  /** The four formats behind the host: with or without a type name, with or without a comment. */
  method Format(host: string, name: string, node: KnownHost) returns (text: string)
    requires TypeText(node) == Some(name) && host == HostText(node.host)
    ensures text == Line(Shown(node))
  {
    hide HostText, CString;
    var comment := if node.comment.Some? then CString(node.comment.value) else "";
    if node.comment.Some? && |name| > 0 {
      text := host + (" " + (name + " " + node.key + (" " + comment)) + "\n");
    } else if node.comment.Some? {
      assert "" + node.key == node.key;
      text := host + (" " + (node.key + (" " + comment)) + "\n");
    } else if |name| > 0 {
      assert name + " " + node.key + "" == name + " " + node.key;
      text := host + (" " + (name + " " + node.key) + "\n");
    } else {
      assert "" + node.key + "" == node.key;
      text := host + (" " + node.key + "\n");
    }
  }

  /** Stores the text and its terminating zero at the front of the buffer. */
  method Print(buf: array<char>, text: string)
    requires |text| + 1 <= buf.Length
    modifies buf
    ensures buf[..|text|] == text && buf[|text|] == '\0'
    ensures buf[|text| + 1..] == old(buf[|text| + 1..])
  {
    forall i | 0 <= i <= |text| {
      buf[i] := At(text, i);
    }
  }

  lemma LineLength(e: KnownHost)
    requires TypeText(e).Some?
    ensures |Line(e)| == |HostText(e.host)| + 2 + |e.key|
                         + (if TypeText(e).value == "" then 0 else |TypeText(e).value| + 1)
                         + (if e.comment.Some? then |e.comment.value| + 1 else 0)
  {}

  /** The length that is counted is the printed one exactly when the comment holds no zero. */
  lemma ShownLength(e: KnownHost)
    requires TypeText(e).Some?
    ensures TypeText(Shown(e)) == TypeText(e)
    ensures |Line(Shown(e))| <= |Line(e)|
    ensures |Line(Shown(e))| == |Line(e)| <==> Shown(e) == e
    ensures Shown(e) == e <==> (e.comment.Some? ==> '\0' !in e.comment.value)
  {
    LineLength(e);
    LineLength(Shown(e));
    if e.comment.Some? {
      var text := e.comment.value;
      var n := Run(NotZero, text);
      if n == |text| {
        assert text[..n] == text;
      }
      if Shown(e) == e {
        assert |CString(text)| == |text|;
      }
    }
  }

  lemma KeptType(e: KnownHost, behind: Behind)
    ensures TypeText(Kept(e, behind)) == TypeText(e)
  {}

  /** The host as it is printed; None when nothing could be encoded. */
  method PrintHost(host: HostName, behind: Behind) returns (text: Option<string>)
    ensures text == if Encodable(KeptHost(host, behind)) then Some(HostText(KeptHost(host, behind))) else None
  {
    match host
    case Hashed(bytes, given) =>
      var hash := EncodeBytes(bytes, behind.hash);
      EncodeShape(Measured(bytes, behind.hash));
      if |hash| == 0 {
        return None;
      }
      var salt := EncodeBytes(given, behind.salt);
      EncodeShape(Measured(given, behind.salt));
      if |salt| == 0 {
        return None;
      }
      text := Some(MARKER + salt + "|" + hash);
    case Plain(name) => text := Some(name);
    case Custom(name) => text := Some(name);
  }

  /** Prints an entry; outlen is the length counted for the whole line, whether or not it fits. */
  method Writeline(entry: KnownHost, behind: Behind, buf: array<char>, fileType: int)
    returns (rc: int, outlen: Option<nat>)
    modifies buf
    ensures fileType != FILE_OPENSSH || TypeText(entry).None? ==>
              rc == METHOD_NOT_SUPPORTED && outlen == None && buf[..] == old(buf[..])
    ensures fileType == FILE_OPENSSH && TypeText(entry).Some? ==>
              var node := Kept(entry, behind);
              if !Encodable(node.host) then rc == ALLOC && outlen == None && buf[..] == old(buf[..])
              else
                && TypeText(node).Some? && TypeText(Shown(node)).Some?
                && outlen == Some(|Line(node)|)
                && var shown := Line(Shown(node));
                   if |Line(node)| < buf.Length then
                     rc == 0 && |shown| < buf.Length && buf[..|shown|] == shown && buf[|shown|] == '\0'
                     && buf[|shown| + 1..] == old(buf[..])[|shown| + 1..]
                   else rc == BUFFER_TOO_SMALL && buf[..] == old(buf[..])
  {
    hide Line, Shown, CString, HostText;
    if fileType != FILE_OPENSSH {
      return METHOD_NOT_SUPPORTED, None;
    }
    var known := TypeText(entry);
    if known.None? {
      return METHOD_NOT_SUPPORTED, None;
    }
    var name := known.value;
    ghost var node := Kept(entry, behind);
    KeptType(entry, behind);
    LineLength(node);
    ShownLength(node);
    var requiredSize := |entry.key|;
    if |name| > 0 {
      requiredSize := requiredSize + |name| + 1;
    }
    if entry.comment.Some? {
      requiredSize := requiredSize + |entry.comment.value| + 1;
    }
    var host := PrintHost(entry.host, behind);
    if host.None? {
      return ALLOC, None;
    }
    requiredSize := requiredSize + |host.value| + 3; // a blank, the newline and the zero
    outlen := Some(requiredSize - 1);
    if requiredSize > buf.Length {
      return BUFFER_TOO_SMALL, outlen;
    }
    var text := Format(host.value, name, Kept(entry, behind));
    Print(buf, text);
    rc := 0;
  }

  lemma TrimmedAt(s: string, i: nat, k: nat)
    requires i <= k <= |s|
    requires forall j | i <= j < k :: Blank(s[j])
    requires k < |s| ==> !Blank(s[k])
    ensures Trimmed(s[i..]) == s[k..]
  {
    RunIs(Blank, s[i..], k - i);
  }

  lemma SuffixIsLine(line: string, i: nat)
    requires IsLine(line) && i <= |line|
    ensures IsLine(line[i..])
  {}

  /** Looks for the newline that ends the key part and leaves it out of the length. */
  method KeyLength(line: string, keyp: nat) returns (keylen: nat)
    requires IsLine(line) && keyp < |line|
    ensures keyp + keylen <= |line|
    ensures line[keyp..keyp + keylen] == line[keyp..][..|line[keyp..]| - |Tail(line[keyp..])|]
    ensures line[keyp + keylen..] == Tail(line[keyp..])
  {
    keylen := |line| - keyp;
    var end, len := keyp, keylen;
    while len > 0 && line[end] != '\n'
      invariant keyp <= end && end + len == |line| && len >= 0
      invariant forall i | keyp <= i < end :: line[i] != '\n'
    {
      end, len := end + 1, len - 1;
    }
    if len > 0 {
      assert line[end..] == "\n";
      keylen := keylen - 1;
    }
  }

  /** Moves over the host to the separator and over the blanks behind it. */
  method SplitHost(text: string) returns (hostlen: nat, keyp: nat, keylen: nat)
    requires text != "" && !Blank(text[0])
    ensures hostlen == Run(Visible, text) && keyp + keylen == |text|
    ensures text[keyp..] == Trimmed(text[hostlen..])
    ensures 1 <= hostlen <= keyp && (keylen > 0 ==> hostlen < keyp)
  {
    var cp, len := 0, |text|;
    while len > 0 && !Blank(text[cp])
      invariant 0 <= cp && cp + len == |text| && len >= 0
      invariant forall i | 0 <= i < cp :: !Blank(text[i])
    {
      cp, len := cp + 1, len - 1;
    }
    RunIs(Visible, text, cp);
    hostlen := cp;
    while len > 0 && Blank(text[cp])
      invariant hostlen <= cp && cp + len == |text| && len >= 0
      invariant forall i | hostlen <= i < cp :: Blank(text[i])
    {
      cp, len := cp + 1, len - 1;
    }
    TrimmedAt(text, hostlen, cp);
    keyp, keylen := cp, len;
  }

  /** Tells the type name, the key and the comment apart; tail is what follows the key part in memory. */
  method SplitKey(part: string, tail: string)
    returns (typeName: Option<string>, key: string, comment: Option<string>, keyType: KeyType)
    requires part != "" && (tail == "" || tail == "\n")
    ensures KeyFields(keyType, if keyType == Unknown then typeName else None, key, comment) == ParseKey(part, tail)
    ensures keyType != Unset
  {
    hide Run, Trimmed, Classify;
    if Digit(part[0]) {
      return None, part, None, Rsa1;
    }
    var k, keylen := 0, |part|;
    while keylen > 0 && !Blank(part[k])
      invariant 0 <= k && k + keylen == |part| && keylen >= 0
      invariant forall i | 0 <= i < k :: !Blank(part[i])
    {
      k, keylen := k + 1, keylen - 1;
    }
    RunIs(Visible, part, k);
    ghost var n := k;
    var name := part[..k];
    keyType := Classify(name);
    // neither the newline nor the end of the text is a blank
    while k < |part| && Blank(part[k])
      invariant n <= k && k + keylen == |part| && keylen >= 0
      invariant forall i | n <= i < k :: Blank(part[i])
    {
      k, keylen := k + 1, keylen - 1;
    }
    TrimmedAt(part, n, k);
    key, comment := SplitRest(part[k..], tail);
    typeName := Some(name);
  }

  /** The key and the comment behind the type name. */
  method SplitRest(rest: string, tail: string) returns (key: string, comment: Option<string>)
    ensures key == if Run(Visible, rest) == 0 then tail else rest[..Run(Visible, rest)]
    ensures comment == if Run(Visible, rest) == |rest| then None else Some(Trimmed(rest[Run(Visible, rest)..]))
    requires rest == "" || !Blank(rest[0])
  {
    hide Run, Trimmed;
    var c, commentlen := 0, |rest|;
    while commentlen > 0 && !Blank(rest[c])
      invariant 0 <= c && c + commentlen == |rest| && commentlen >= 0
      invariant forall i | 0 <= i < c :: !Blank(rest[i])
    {
      c, commentlen := c + 1, commentlen - 1;
    }
    RunIs(Visible, rest, c);
    ghost var m := c;
    var keylen := |rest| - commentlen;
    var noComment := commentlen == 0;
    while commentlen > 0 && Blank(rest[c])
      invariant m <= c && c + commentlen == |rest| && commentlen >= 0
      invariant forall i | m <= i < c :: Blank(rest[i])
    {
      c, commentlen := c + 1, commentlen - 1;
    }
    TrimmedAt(rest, m, c);
    // an empty key takes the rest of the text instead
    key := if keylen == 0 then rest + tail else rest[..keylen];
    comment := if noComment then None else Some(rest[c..]);
  }

  lemma StoredPlain(name: string, typeName: Option<string>, f: KeyFields)
    requires f.keyType != Unset && f.typeName == if f.keyType == Unknown then typeName else None
    ensures Stored(AsPlain, name, "", typeName, Encoded(f.key), f.comment, f.keyType) == Ok(Entry(Plain(name), f))
  {}

  lemma AddFirst(hosts: seq<KnownHost>, names: seq<string>, f: KeyFields)
    requires names != []
    ensures AddNames(hosts, names, f)
         == if |names[0]| >= 255 then LineOutcome(METHOD_NOT_SUPPORTED, hosts)
            else AddNames(hosts + [Entry(Plain(names[0]), f)], names[1..], f)
  {}

  lemma AddNone(hosts: seq<KnownHost>, f: KeyFields)
    ensures RightSplit("") == [] && AddNames(hosts, RightSplit(""), f) == LineOutcome(0, hosts)
  {}

  /** The step of the right-to-left loop: the piece up to stop, when the start of its last name has been reached. */
  lemma TakeName(host: string, stop: nat, name: nat)
    requires name < stop <= |host| && (name > 0 ==> host[name - 1] == ',')
    requires forall i | name <= i < stop - 1 :: host[i] != ','
    ensures RightSplit(host[..stop]) == [host[name..stop]] + RightSplit(host[..if name == 0 then 0 else name - 1])
  {
    RightmostName(host[..stop], name);
    PrefixOfPrefix(host, name, stop);
    if name > 0 {
      PrefixOfPrefix(host, name - 1, stop);
    }
  }

  /** The rightmost name of h starts at name. */
  lemma RightmostName(h: string, name: nat)
    requires name < |h| && (name > 0 ==> h[name - 1] == ',')
    requires forall i | name <= i < |h| - 1 :: h[i] != ','
    ensures RightSplit(h) == [h[name..]] + RightSplit(if name == 0 then "" else h[..name - 1])
  {
    LastCommaIs(h, |h| - 1, name - 1);
  }

}
