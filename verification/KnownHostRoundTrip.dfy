/** Right-to-left splitting undoes joining with commas. */
module HostNames {
  import opened Base64
  import opened KnownHostEntry
  import opened KnownHostLine

  function Join(names: seq<string>): string
  {
    if names == [] then ""
    else if |names| == 1 then names[0]
    else names[0] + "," + Join(names[1..])
  }

  ghost predicate IsName(s: string) { s != "" && ',' !in s }

  function Backwards<T>(s: seq<T>): (r: seq<T>)
    ensures |r| == |s|
    ensures forall i | 0 <= i < |s| :: r[i] == s[|s| - 1 - i]
  {
    seq(|s|, i requires 0 <= i < |s| => s[|s| - 1 - i])
  }

  lemma {:induction false} JoinSnoc(names: seq<string>, last: string)
    requires names != []
    ensures Join(names + [last]) == Join(names) + "," + last
  {
    if |names| == 1 {
      assert (names + [last])[1..] == [last];
    } else {
      JoinSnoc(names[1..], last);
      assert (names + [last])[1..] == names[1..] + [last];
    }
  }

  lemma SplitOne(host: string, before: string, last: string)
    requires host == before + "," + last && last != "" && ',' !in last
    ensures RightSplit(host) == [last] + RightSplit(before)
  {
    LastCommaIs(host, |host| - 1, |before|);
    assert host[|before| + 1..] == last && host[..|before|] == before;
  }

  /** Splitting the comma-join of any names gives exactly these names, last to first. */
  lemma {:induction false} SplitInvertsJoin(names: seq<string>)
    requires names != [] && forall n <- names :: IsName(n)
    ensures RightSplit(Join(names)) == Backwards(names)
  {
    var last := names[|names| - 1];
    var before := names[..|names| - 1];
    assert IsName(last);
    assert names == before + [last];
    if before == [] {
      LastCommaIs(last, |last| - 1, -1);
      assert Join(names) == last;
    } else {
      SplitInvertsJoin(before);
      JoinSnoc(before, last);
      SplitOne(Join(names), Join(before), last);
      assert Backwards(names) == [last] + Backwards(before);
    }
  }

  /** The entries for a list of names that fit the buffer, in the order given. */
  function Entries(names: seq<string>, f: KeyFields): (r: seq<KnownHost>)
    ensures |r| == |names|
  {
    seq(|names|, i requires 0 <= i < |names| => Entry(Plain(names[i]), f))
  }

  lemma {:induction false} AddNamesAdds(hosts: seq<KnownHost>, names: seq<string>, f: KeyFields)
    requires forall n <- names :: |n| < 255
    ensures AddNames(hosts, names, f) == LineOutcome(0, hosts + Entries(names, f))
    decreases |names|
  {
    if names == [] {
      assert hosts + Entries(names, f) == hosts;
    } else {
      assert |names[0]| < 255;
      AddNamesAdds(hosts + [Entry(Plain(names[0]), f)], names[1..], f);
      assert hosts + Entries(names, f) == hosts + [Entry(Plain(names[0]), f)] + Entries(names[1..], f);
    }
  }

  /** One line with several names adds each of them once, last to first, and nothing else. */
  lemma JoinedNamesAreAdded(hosts: seq<KnownHost>, names: seq<string>, f: KeyFields)
    requires names != [] && forall n <- names :: IsName(n) && |n| < 255
    ensures OldstyleLine(hosts, Join(names), f) == LineOutcome(0, hosts + Entries(Backwards(names), f))
  {
    SplitInvertsJoin(names);
    JoinIsNotEmpty(names);
    AddNamesAdds(hosts, Backwards(names), f);
  }

  lemma {:induction false} JoinIsNotEmpty(names: seq<string>)
    requires names != [] && forall n <- names :: IsName(n)
    ensures Join(names) != ""
  {
    assert IsName(names[0]);
  }

  /** What was added is a prefix of the wanted entries, and all of them exactly if the call succeeded. */
  lemma {:induction false} AddNamesCounts(hosts: seq<KnownHost>, names: seq<string>, f: KeyFields)
    ensures AddNames(hosts, names, f).rc == 0 <==> forall n <- names :: |n| < 255
    ensures AddNames(hosts, names, f).rc == 0 ==> AddNames(hosts, names, f).hosts == hosts + Entries(names, f)
    decreases |names|
  {
    if forall n <- names :: |n| < 255 {
      AddNamesAdds(hosts, names, f);
    } else if |names[0]| < 255 {
      AddNamesCounts(hosts + [Entry(Plain(names[0]), f)], names[1..], f);
      var n :| n in names && |n| >= 255;
      assert n in names[1..];
    }
  }

  ghost predicate NoInnerComma(host: string) { forall i | 0 <= i < |host| - 1 :: host[i] != ',' }

  /** Which texts stand for the single name they spell. */
  lemma SplitsToItself(host: string)
    requires host != ""
    ensures RightSplit(host) == [host] <==> NoInnerComma(host)
  {
    var k := LastComma(host, |host| - 1);
    if k >= 0 {
      assert host[k] == ',';
      assert |RightSplit(host)[0]| < |host|;
    }
  }

  lemma {:induction false} PartsAreVisible(host: string)
    requires forall c <- host :: !Blank(c)
    ensures forall n <- RightSplit(host) :: n != "" && forall c <- n :: !Blank(c)
    decreases |host|
  {
    if host != "" {
      var k := LastComma(host, |host| - 1);
      if k >= 0 {
        PartsAreVisible(host[..k]);
      }
    }
  }
}

/** Reading a printed line gives back the entry, exactly when the entry can be stored in that form. */
module KnownHostRoundTrip {
  import opened Sequences
  import opened Words
  import opened Base64
  import opened KnownHostEntry
  import opened KnownHostLine
  import opened HostNames

  ghost predicate OneLine(s: string) { forall c <- s :: c != '\0' && c != '\n' }

  ghost predicate AllVisible(s: string) { forall c <- s :: !Blank(c) }

  /** An entry the printer is made for: texts of one line, hashes that are not empty, a type it has a name for. */
  ghost predicate Printable(e: KnownHost) {
    && (match e.host
        case Plain(name) => OneLine(name)
        case Custom(name) => OneLine(name)
        case Hashed(hash, salt) => hash != [] && salt != [])
    && OneLine(e.key)
    && (e.typeName.Some? ==> e.keyType == Unknown && OneLine(e.typeName.value))
    && (e.comment.Some? ==> OneLine(e.comment.value))
    && TypeText(e).Some?
  }

  ghost predicate HostStorable(h: HostName) {
    match h
    case Plain(name) =>
      3 <= |name| < 255 && AllVisible(name) && NoInnerComma(name) && name[0] != '#' && !(MARKER <= name)
    case Hashed(hash, salt) => |Encode(salt)| < 31 && |Encode(hash)| < 255
    case Custom(_) => false
  }

  ghost predicate KeyStorable(e: KnownHost)
    requires TypeText(e).Some?
  {
    if e.keyType == Rsa1 then
      e.key != "" && Digit(e.key[0]) && e.comment.None?
    else
      var t := TypeText(e).value;
      && t != "" && AllVisible(t) && !Digit(t[0])
      && (e.keyType == Unknown ==> Classify(t) == Unknown)
      && e.key != "" && AllVisible(e.key)
      && (e.comment.Some? && e.comment.value != "" ==> !Blank(e.comment.value[0]))
  }

  /** What a caller can look at before printing to know that the line will be read back. */
  ghost predicate Storable(e: KnownHost)
    requires TypeText(e).Some?
  {
    HostStorable(e.host) && KeyStorable(e) && |KeyPart(e)| >= 20
  }

  lemma RunPrefix(p: char -> bool, a: string, b: string)
    requires forall c <- a :: p(c)
    requires b != "" ==> !p(b[0])
    ensures Run(p, a + b) == |a|
  {
    RunIs(p, a + b, |a|);
  }

  lemma TrimBefore(s: string, tail: string)
    requires tail != "" && !Blank(tail[0])
    ensures Trimmed(s + tail) == Trimmed(s) + tail
  {
    var n := Run(Blank, s);
    RunIs(Blank, s + tail, n);
    assert (s + tail)[n..] == s[n..] + tail;
  }

  lemma TrimmedIsSame(s: string)
    requires s == "" || !Blank(s[0])
    ensures Trimmed(s) == s
  {
    RunIs(Blank, s, 0);
  }

  /** How a line falls into its host and its key part. */
  lemma SplitLine(hosts: seq<KnownHost>, host: string, keyPart: string)
    requires host != "" && AllVisible(host) && host[0] != '#' && OneLine(host)
    ensures |Assembled(host, keyPart)| >= |host| + 1 + |Trimmed(keyPart)|
    ensures ReadLine(hosts, Assembled(host, keyPart))
         == HostLine(hosts, Assembled(host, keyPart), |host|, Trimmed(keyPart), "\n")
  {
    hide Run, Trimmed, HostLine, Tail;
    var after := " " + (keyPart + "\n");
    Assoc(" ", keyPart, "\n");
    assert host[0] in host;
    TrimmedIsSame(host + after);
    RunPrefix(Visible, host, after);
    Behind(host, after);
    KeyOfLine(keyPart);
    BlankFirst(keyPart + "\n");
  }

  lemma BlankFirst(s: string)
    ensures Trimmed(" " + s) == Trimmed(s)
  {
    var n := Run(Blank, s);
    RunIs(Blank, " " + s, n + 1);
    assert (" " + s)[n + 1..] == s[n..];
  }

  lemma KeyOfLine(keyPart: string)
    ensures Trimmed(keyPart + "\n") == Trimmed(keyPart) + "\n"
    ensures Tail(Trimmed(keyPart + "\n")) == "\n"
    ensures (Trimmed(keyPart) + "\n")[..|Trimmed(keyPart)|] == Trimmed(keyPart)
  {
    TrimBefore(keyPart, "\n");
  }

  // The key part, forward.

  lemma ClassifyKnown(e: KnownHost)
    requires TypeText(e).Some? && e.keyType != Rsa1 && e.keyType != Unknown
    ensures Classify(TypeText(e).value) == e.keyType
    ensures TypeText(e).value != "" && AllVisible(TypeText(e).value) && !Digit(TypeText(e).value[0])
  {
    assert DSS[0] == RSA[0] == ED25519[0] == 's' && ECDSA256[0] == ECDSA384[0] == ECDSA521[0] == 'e';
    match e.keyType
    case SshRsa => assert RSA[4] != DSS[4];
    case Ecdsa384 => assert ECDSA384[16] != ECDSA256[16];
    case Ecdsa521 => assert ECDSA521[16] != ECDSA256[16] && ECDSA521[16] != ECDSA384[16];
    case Ed25519 => assert ED25519[4] != DSS[4] && ED25519[4] != RSA[4];
    case _ =>
  }

  /** The names of the key types, as the file format has them. */
  ghost predicate Names(name: string, t: KeyType) {
    || (name == "ssh-rsa" && t == SshRsa)
    || (name == "ssh-dss" && t == SshDss)
    || (name == "ecdsa-sha2-nistp256" && t == Ecdsa256)
    || (name == "ecdsa-sha2-nistp384" && t == Ecdsa384)
    || (name == "ecdsa-sha2-nistp521" && t == Ecdsa521)
    || (name == "ssh-ed25519" && t == Ed25519)
  }

  /** A key part that starts with such a name is of its type, and an entry of the type is printed with the name. */
  lemma TypeNames(name: string, t: KeyType, rest: string, tail: string, e: KnownHost)
    requires Names(name, t)
    ensures ParseKey(name + (" " + rest), tail).keyType == t
    ensures e.keyType == t ==> TypeText(e) == Some(name)
  {
    hide ParseKey, TypedFields;
    var k := KnownHost(Plain(""), t, "", None, None);
    ClassifyKnown(k);
    SplitTyped(name, rest, tail);
    FieldType(name, Trimmed(rest), tail);
  }

  lemma FieldType(name: string, rest: string, tail: string)
    ensures TypedFields(name, rest, tail).keyType == Classify(name)
  {}

  function CommentText(e: KnownHost): string {
    if e.comment.Some? then " " + e.comment.value else ""
  }

  /** A typed key part: name, key and comment come back. */
  lemma ParseTyped(e: KnownHost, name: string, tail: string)
    requires e.keyType != Rsa1 && name != "" && AllVisible(name) && !Digit(name[0])
    requires e.key != "" && AllVisible(e.key)
    requires e.comment.Some? && e.comment.value != "" ==> !Blank(e.comment.value[0])
    ensures ParseKey(name + " " + e.key + CommentText(e), tail)
         == KeyFields(Classify(name), if Classify(name) == Unknown then Some(name) else None, e.key, e.comment)
  {
    hide Run, Trimmed, Classify, TypedFields, ParseKey;
    var rest := e.key + CommentText(e);
    AssocFour(name, " ", e.key, CommentText(e));
    SplitTyped(name, rest, tail);
    assert e.key[0] in e.key;
    TrimmedIsSame(rest);
    TypedRest(e, name, tail);
  }

  lemma SplitTyped(name: string, rest: string, tail: string)
    requires name != "" && AllVisible(name) && !Digit(name[0])
    ensures ParseKey(name + (" " + rest), tail) == TypedFields(name, Trimmed(rest), tail)
  {
    var after := " " + rest;
    RunPrefix(Visible, name, after);
    assert (name + after)[..|name|] == name && (name + after)[|name|..] == after;
    BlankFirst(rest);
  }

  lemma TypedRest(e: KnownHost, name: string, tail: string)
    requires e.key != "" && AllVisible(e.key)
    requires e.comment.Some? && e.comment.value != "" ==> !Blank(e.comment.value[0])
    ensures TypedFields(name, e.key + CommentText(e), tail)
         == KeyFields(Classify(name), if Classify(name) == Unknown then Some(name) else None, e.key, e.comment)
  {
    var rest := e.key + CommentText(e);
    RunPrefix(Visible, e.key, CommentText(e));
    assert rest[..|e.key|] == e.key && rest[|e.key|..] == CommentText(e);
    if e.comment.Some? {
      BlankFirst(e.comment.value);
      TrimmedIsSame(e.comment.value);
    }
  }

  lemma ParsePrinted(e: KnownHost, tail: string)
    requires Printable(e) && KeyStorable(e)
    ensures KeyPart(e) != "" && !Blank(KeyPart(e)[0])
    ensures ParseKey(KeyPart(e), tail) == KeyFields(e.keyType, e.typeName, e.key, e.comment)
  {
    hide ParseKey, Classify;
    if e.keyType != Rsa1 {
      var t := TypeText(e).value;
      assert t[0] in t;
      assert KeyPart(e) == t + " " + e.key + CommentText(e);
      ParseTyped(e, t, tail);
      if e.keyType != Unknown {
        ClassifyKnown(e);
      }
    } else {
      assert KeyPart(e) == e.key;
      Rsa1Fields(e.key, tail);
    }
  }

  lemma Rsa1Fields(key: string, tail: string)
    requires key != "" && Digit(key[0])
    ensures ParseKey(key, tail) == KeyFields(Rsa1, None, key, None)
  {}

  // The key part, backward.

  /** Whatever key part was read, the fields that come out can be stored. */
  lemma ParsedIsStorable(e: KnownHost, part: string)
    requires Printable(e) && part != "" && !Blank(part[0])
    requires ParseKey(part, "\n") == KeyFields(e.keyType, e.typeName, e.key, e.comment)
    ensures e.keyType == Rsa1 ==> e.key == part && e.comment.None?
    ensures e.keyType == Rsa1 <==> Digit(part[0])
    ensures KeyStorable(e)
  {
    hide Classify;
    if Digit(part[0]) {
    } else {
      var n := Run(Visible, part);
      var rest := Trimmed(part[n..]);
      var m := Run(Visible, rest);
      assert '\n' in "\n";
      assert m > 0;
      assert AllVisible(part[..n]) && AllVisible(rest[..m]);
      if Classify(part[..n]) != Unknown {
        ClassifyKnown(e);
      }
    }
  }

  // The host part.

  lemma EncodeIsPlain(b: seq<byte>)
    ensures forall c <- Encode(b) :: !Blank(c) && c != '|' && c != '\0' && c != '\n'
  {
    EncodeShape(b);
  }

  lemma HashedTextIsPlain(hash: seq<byte>, salt: seq<byte>)
    ensures AllVisible(HostText(Hashed(hash, salt))) && OneLine(HostText(Hashed(hash, salt)))
    ensures |HostText(Hashed(hash, salt))| == 4 + |Encode(salt)| + |Encode(hash)|
    ensures MARKER <= HostText(Hashed(hash, salt))
  {
    EncodeIsPlain(hash);
    EncodeIsPlain(salt);
  }

  lemma Between(s: string, h: string, after: string)
    ensures (s + ("|" + (h + after)))[..|s|] == s
    ensures (s + ("|" + (h + after)))[|s| + 1..][..|h|] == h
  {
    assert (s + ("|" + (h + after)))[|s| + 1..] == h + after;
  }

  /** The two texts of a marked host are found again. */
  lemma HashedSplits(hosts: seq<KnownHost>, text: string, s: string, h: string, after: string, f: KeyFields)
    requires forall c <- s :: c != '|'
    requires text == MARKER + (s + ("|" + (h + after)))
    ensures
      HashedLine(hosts, text, 4 + |s| + |h|, f) ==
      if |s| < 31 && |h| < 255 then
        var name := NameOf(AsSha1, h, s);
        if name.Err? then LineOutcome(name.rc, hosts) else LineOutcome(0, hosts + [Entry(name.value, f)])
      else LineOutcome(METHOD_NOT_SUPPORTED, hosts)
  {
    var salt := s + ("|" + (h + after));
    assert text[3..] == salt;
    RunPrefix(NotBar, s, "|" + (h + after));
    Between(s, h, after);
  }

  lemma HashedDecodes(hosts: seq<KnownHost>, host: string, s: string, h: string, hash: seq<byte>, salt: seq<byte>,
                      after: string, f: KeyFields)
    requires host == MARKER + s + "|" + h && forall c <- s :: c != '|'
    requires Decode(s) == Some(salt) && Decode(h) == Some(hash)
    ensures HashedLine(hosts, host + after, |host|, f) ==
            if |s| < 31 && |h| < 255 then LineOutcome(0, hosts + [Entry(Hashed(hash, salt), f)])
            else LineOutcome(METHOD_NOT_SUPPORTED, hosts)
  {
    AssocFive(MARKER, s, "|", h, after);
    HashedSplits(hosts, host + after, s, h, after, f);
    assert NameOf(AsSha1, h, s) == Ok(Hashed(hash, salt));
  }

  /** A hashed host is read back if and only if both texts fit their buffers. */
  lemma HashedRead(hosts: seq<KnownHost>, hash: seq<byte>, salt: seq<byte>, after: string, f: KeyFields)
    ensures
      var host := HostText(Hashed(hash, salt));
      HashedLine(hosts, host + after, |host|, f) ==
      if |Encode(salt)| < 31 && |Encode(hash)| < 255 then LineOutcome(0, hosts + [Entry(Hashed(hash, salt), f)])
      else LineOutcome(METHOD_NOT_SUPPORTED, hosts)
  {
    EncodeIsPlain(salt);
    DecodeInvertsEncode(salt);
    DecodeInvertsEncode(hash);
    HashedDecodes(hosts, HostText(Hashed(hash, salt)), Encode(salt), Encode(hash), hash, salt, after, f);
  }

  /** A plain host is read back if and only if it is one name, long enough, not too long and not marked. */
  lemma PlainRead(hosts: seq<KnownHost>, name: string, f: KeyFields)
    requires name != ""
    ensures OldstyleLine(hosts, name, f) == LineOutcome(0, hosts + [Entry(Plain(name), f)])
       <==> NoInnerComma(name) && |name| < 255
  {
    SplitsToItself(name);
    AddNamesCounts(hosts, RightSplit(name), f);
    assert Entries([name], f) == [Entry(Plain(name), f)];
    if OldstyleLine(hosts, name, f) == LineOutcome(0, hosts + [Entry(Plain(name), f)]) {
      var names := RightSplit(name);
      assert |hosts + Entries(names, f)| == |hosts| + 1;
      assert (hosts + Entries(names, f))[|hosts|] == Entries(names, f)[0];
      assert names == [name];
    }
  }

  // The theorem.

  lemma StorableHostText(h: HostName)
    requires HostStorable(h)
    ensures HostText(h) != "" && AllVisible(HostText(h)) && HostText(h)[0] != '#' && |HostText(h)| > 2
  {
    if h.Hashed? {
      HashedTextIsPlain(h.hash, h.salt);
    }
  }

  /** When the fields of a split line are those of e, it is the host part that decides. */
  lemma FieldsRead(hosts: seq<KnownHost>, e: KnownHost, part: string)
    requires !e.host.Custom? && HostText(e.host) != "" && AllVisible(HostText(e.host))
    requires HostText(e.host)[0] != '#' && OneLine(HostText(e.host))
    requires |Trimmed(part)| >= 20
    requires ParseKey(Trimmed(part), "\n") == KeyFields(e.keyType, e.typeName, e.key, e.comment)
    ensures ReadLine(hosts, Assembled(HostText(e.host), part)) == LineOutcome(0, hosts + [e]) <==> HostStorable(e.host)
  {
    var host := HostText(e.host);
    SplitLine(hosts, host, part);
    HostDecides(hosts, e, " " + part + "\n", Trimmed(part));
  }

  lemma HostDecides(hosts: seq<KnownHost>, e: KnownHost, after: string, key: string)
    requires !e.host.Custom? && HostText(e.host) != "" && AllVisible(HostText(e.host)) && HostText(e.host)[0] != '#'
    requires |after| >= 1 + |key| && |key| >= 20
    requires ParseKey(key, "\n") == KeyFields(e.keyType, e.typeName, e.key, e.comment)
    ensures HostLine(hosts, HostText(e.host) + after, |HostText(e.host)|, key, "\n") == LineOutcome(0, hosts + [e])
       <==> HostStorable(e.host)
  {
    var host := HostText(e.host);
    var f := ParseKey(key, "\n");
    assert (host + after)[..|host|] == host;
    assert Entry(e.host, f) == e;
    match e.host
    case Plain(name) =>
      PlainRead(hosts, name, f);
      HashedAddsHashed(hosts, host + after, |host|, f);
    case Hashed(hash, salt) =>
      HashedTextIsPlain(hash, salt);
      HashedRead(hosts, hash, salt, after, f);
    case Custom(_) =>
  }

  lemma HashedAddsHashed(hosts: seq<KnownHost>, text: string, hostlen: nat, f: KeyFields)
    requires 3 <= |text| && hostlen <= |text|
    ensures forall e: KnownHost :: HashedLine(hosts, text, hostlen, f).hosts == hosts + [e] ==> e.host.Hashed?
  {
    forall e: KnownHost | HashedLine(hosts, text, hostlen, f).hosts == hosts + [e]
      ensures e.host.Hashed?
    {
      assert (hosts + [e])[|hosts|] == e;
    }
  }

  /** A line that added one plain name gave a visible one; no line adds an entry of the application's own form. */
  lemma ReadHostIsVisible(hosts: seq<KnownHost>, line: string, e: KnownHost)
    requires ReadLine(hosts, line) == LineOutcome(0, hosts + [e])
    ensures !e.host.Custom?
    ensures e.host.Plain? ==> e.host.name != "" && AllVisible(e.host.name)
  {
    assert (hosts + [e])[|hosts|] == e;
    var text := Trimmed(line);
    var hostlen := Run(Visible, text);
    var key := Trimmed(text[hostlen..]);
    var part := key[..|key| - |Tail(key)|];
    var f := ParseKey(part, Tail(key));
    if hostlen > 2 && !(MARKER <= text[..hostlen]) {
      var names := RightSplit(text[..hostlen]);
      AddNamesCounts(hosts, names, f);
      assert (hosts + Entries(names, f))[|hosts|] == Entries(names, f)[0];
      PartsAreVisible(text[..hostlen]);
    } else {
      HashedAddsHashed(hosts, text, hostlen, f);
    }
  }

  lemma StorableReads(hosts: seq<KnownHost>, e: KnownHost)
    requires Printable(e) && Storable(e)
    ensures ReadLine(hosts, Line(e)) == LineOutcome(0, hosts + [e])
  {
    StorableHostText(e.host);
    ParsePrinted(e, "\n");
    PrintableHostText(e);
    TrimmedIsSame(KeyPart(e));
    FieldsRead(hosts, e, KeyPart(e));
  }

  lemma PrintableHostText(e: KnownHost)
    requires Printable(e)
    ensures OneLine(HostText(e.host))
  {
    if e.host.Hashed? {
      HashedTextIsPlain(e.host.hash, e.host.salt);
    }
  }

  lemma CommentLineIsIgnored(hosts: seq<KnownHost>, line: string)
    requires line != "" && line[0] == '#'
    ensures ReadLine(hosts, line) == LineOutcome(0, hosts)
  {
    TrimmedIsSame(line);
  }

  lemma OnlyStorableReads(hosts: seq<KnownHost>, e: KnownHost)
    requires Printable(e)
    requires ReadLine(hosts, Line(e)) == LineOutcome(0, hosts + [e])
    ensures Storable(e)
  {
    ReadHostIsVisible(hosts, Line(e), e);
    PrintableHostText(e);
    if e.host.Hashed? {
      HashedTextIsPlain(e.host.hash, e.host.salt);
    }
    assert |hosts + [e]| > |hosts|;
    if HostText(e.host)[0] == '#' {
      CommentLineIsIgnored(hosts, Line(e));
    }
    ReadPartIsStorable(hosts, e);
    FieldsRead(hosts, e, KeyPart(e));
  }

  lemma ReadPartIsStorable(hosts: seq<KnownHost>, e: KnownHost)
    requires Printable(e)
    requires ReadLine(hosts, Line(e)) == LineOutcome(0, hosts + [e])
    requires HostText(e.host) != "" && AllVisible(HostText(e.host))
    requires HostText(e.host)[0] != '#' && OneLine(HostText(e.host))
    ensures KeyStorable(e) && |KeyPart(e)| >= 20 && Trimmed(KeyPart(e)) == KeyPart(e)
    ensures ParseKey(KeyPart(e), "\n") == KeyFields(e.keyType, e.typeName, e.key, e.comment)
  {
    SplitLine(hosts, HostText(e.host), KeyPart(e));
    var key := Trimmed(KeyPart(e));
    assert (hosts + [e])[|hosts|] == e;
    ReadFields(hosts, Line(e), |HostText(e.host)|, key, e);
    ParsedIsStorable(e, key);
    ParsePrinted(e, "\n");
    TrimmedIsSame(KeyPart(e));
  }

  /** An entry that was added carries the fields of the key part. */
  lemma ReadFields(hosts: seq<KnownHost>, text: string, hostlen: nat, key: string, e: KnownHost)
    requires hostlen + 1 + |key| <= |text| && |key| >= 20
    requires HostLine(hosts, text, hostlen, key, "\n") == LineOutcome(0, hosts + [e])
    ensures ParseKey(key, "\n") == KeyFields(e.keyType, e.typeName, e.key, e.comment)
  {
    var f := ParseKey(key, "\n");
    assert (hosts + [e])[|hosts|] == e;
    if hostlen > 2 && !(MARKER <= text[..hostlen]) {
      var names := RightSplit(text[..hostlen]);
      AddNamesCounts(hosts, names, f);
      assert (hosts + Entries(names, f))[|hosts|] == Entries(names, f)[0];
    }
  }

  /** Reading the printed line back appends exactly the entry that was printed, if and only if it can be stored. */
  lemma ReadUndoesWrite(hosts: seq<KnownHost>, e: KnownHost)
    requires Printable(e)
    ensures ReadLine(hosts, Line(e)) == LineOutcome(0, hosts + [e]) <==> Storable(e)
  {
    if Storable(e) {
      StorableReads(hosts, e);
    } else if ReadLine(hosts, Line(e)) == LineOutcome(0, hosts + [e]) {
      OnlyStorableReads(hosts, e);
    }
  }

  /** A comment on an RSA1 entry comes back as part of its key. */
  lemma Rsa1CommentJoinsKey(hosts: seq<KnownHost>, e: KnownHost)
    requires Printable(e) && HostStorable(e.host) && |KeyPart(e)| >= 20
    requires e.keyType == Rsa1 && e.comment.Some? && e.key != "" && Digit(e.key[0])
    ensures ReadLine(hosts, Line(e))
         == LineOutcome(0, hosts + [e.(key := e.key + " " + e.comment.value, comment := None)])
  {
    var read := e.(key := e.key + " " + e.comment.value, comment := None);
    assert KeyPart(read) == KeyPart(e) && Line(read) == Line(e);
    assert OneLine(read.key);
    StorableReads(hosts, read);
  }

  /** An unknown type name that begins a known one comes back as the known type. */
  lemma PrefixIsTakenForKnown(hosts: seq<KnownHost>, e: KnownHost)
    requires Printable(e) && HostStorable(e.host) && |KeyPart(e)| >= 20
    requires e.keyType == Unknown && e.key != "" && AllVisible(e.key) && e.comment.None?
    requires
      var t := TypeText(e).value;
      t != "" && AllVisible(t) && !Digit(t[0]) && Classify(t) != Unknown
    ensures
      var read := e.(keyType := Classify(TypeText(e).value), typeName := None);
      ReadLine(hosts, Line(e)) == LineOutcome(0, hosts + [read]) && read != e
  {
    var t := TypeText(e).value;
    StorableHostText(e.host);
    PrintableHostText(e);
    ParseTyped(e, t, "\n");
    PrintedPart(e);
    TrimmedIsSame(KeyPart(e));
    FieldsRead(hosts, e.(keyType := Classify(t), typeName := None), KeyPart(e));
  }

  lemma PrintedPart(e: KnownHost)
    requires TypeText(e).Some? && TypeText(e).value != "" && AllVisible(TypeText(e).value)
    ensures KeyPart(e) == TypeText(e).value + " " + e.key + CommentText(e)
    ensures KeyPart(e) != "" && !Blank(KeyPart(e)[0])
  {
    assert TypeText(e).value[0] in TypeText(e).value;
  }

  /** A plain name of one or two characters is dropped without an error when the line holds no '|'. */
  lemma ShortNameIsDropped(hosts: seq<KnownHost>, e: KnownHost)
    requires Printable(e) && KeyStorable(e) && |KeyPart(e)| >= 20
    requires e.host.Plain? && 1 <= |e.host.name| <= 2 && AllVisible(e.host.name) && e.host.name[0] != '#'
    requires '|' !in Line(e)
    ensures ReadLine(hosts, Line(e)) == LineOutcome(0, hosts)
  {
    ParsePrinted(e, "\n");
    TrimmedIsSame(KeyPart(e));
    SplitLine(hosts, e.host.name, KeyPart(e));
    RunIs(NotBar, Line(e)[3..], |Line(e)[3..]|);
  }

  lemma OneLineConcat(a: string, b: string)
    requires OneLine(a) && OneLine(b)
    ensures OneLine(a + b)
  {}

  lemma TypeTextIsOneLine(e: KnownHost)
    requires Printable(e)
    ensures OneLine(TypeText(e).value)
  {
    match e.keyType
    case SshRsa => assert OneLine(RSA);
    case SshDss => assert OneLine(DSS);
    case Ecdsa256 => assert OneLine(ECDSA256);
    case Ecdsa384 => assert OneLine(ECDSA384);
    case Ecdsa521 => assert OneLine(ECDSA521);
    case Ed25519 => assert OneLine(ED25519);
    case _ =>
  }

  lemma KeyPartIsOneLine(e: KnownHost)
    requires Printable(e)
    ensures OneLine(KeyPart(e))
  {
    hide TypeText;
    TypeTextIsOneLine(e);
    var t := TypeText(e).value;
    OneLineConcat(t, " ");
    var front := if t == "" then "" else t + " ";
    OneLineConcat(front, e.key);
    if e.comment.Some? {
      OneLineConcat(" ", e.comment.value);
      OneLineConcat(front + e.key, " " + e.comment.value);
    }
  }

  lemma EndedIsLine(front: string)
    requires OneLine(front)
    ensures IsLine(front + "\n")
  {
    forall i | 0 <= i < |front|
      ensures front[i] != '\0' && front[i] != '\n'
    {
      assert front[i] in front;
    }
  }

  /** A printed line is a line. */
  lemma PrintedIsLine(e: KnownHost)
    requires Printable(e)
    ensures IsLine(Line(e))
  {
    PrintableHostText(e);
    KeyPartIsOneLine(e);
    var host, part := HostText(e.host), KeyPart(e);
    OneLineConcat(" ", part);
    OneLineConcat(host, " " + part);
    EndedIsLine(host + (" " + part));
    assert Assembled(host, part) == (host + (" " + part)) + "\n";
  }

  /** A line that names several hosts adds one entry for each, last to first. */
  lemma NamesLineAddsEach(hosts: seq<KnownHost>, names: seq<string>, part: string)
    requires names != [] && forall n <- names :: IsName(n) && |n| < 255 && AllVisible(n) && OneLine(n)
    requires |Join(names)| > 2 && Join(names)[0] != '#' && !(MARKER <= Join(names))
    requires |Trimmed(part)| >= 20
    ensures ReadLine(hosts, Assembled(Join(names), part))
         == LineOutcome(0, hosts + Entries(Backwards(names), ParseKey(Trimmed(part), "\n")))
  {
    var host := Join(names);
    JoinIsVisible(names);
    SplitLine(hosts, host, part);
    assert Assembled(host, part)[..|host|] == host;
    JoinedNamesAreAdded(hosts, names, ParseKey(Trimmed(part), "\n"));
  }

  lemma {:induction false} JoinIsVisible(names: seq<string>)
    requires forall n <- names :: AllVisible(n) && OneLine(n)
    ensures AllVisible(Join(names)) && OneLine(Join(names))
  {
    if |names| > 0 {
      assert names[0] in names;
      JoinIsVisible(names[1..]);
    }
  }
}
