/** An entry of the known-hosts collection, and what adding one more stores. */
module KnownHostEntry {
  import opened Words
  import opened Base64

  const METHOD_NOT_SUPPORTED := -33
  const INVAL := -34
  const ALLOC := -6

  /** The host part: in clear, as a salted SHA-1 hash, or in a form only the application knows. */
  datatype HostName =
    | Plain(name: string)
    | Hashed(hash: seq<byte>, salt: seq<byte>)
    | Custom(name: string)

  /** The key type bits of the type mask; Unset when they are all zero. */
  datatype KeyType =
    | Unset | Rsa1 | SshRsa | SshDss | Ecdsa256 | Ecdsa384 | Ecdsa521 | Ed25519
    | Unassigned(code: nat)
    | Unknown

  datatype KnownHost = KnownHost(host: HostName, keyType: KeyType, key: string,
                                 typeName: Option<string>, comment: Option<string>)

  /** How a caller gives the host and the key. */
  datatype NameFormat = AsPlain | AsSha1 | AsCustom | AsOther
  datatype KeyText = Encoded(text: string) | Raw(bytes: seq<byte>, behind: seq<byte>)

  datatype Result<+T> = Ok(value: T) | Err(rc: int)

  function NameOf(format: NameFormat, host: string, salt: string): Result<HostName> {
    match format
    case AsPlain => Ok(Plain(host))
    case AsCustom => Ok(Custom(host))
    case AsSha1 =>
      var hash, salted := Decode(host), Decode(salt);
      if hash.Some? && salted.Some? then Ok(Hashed(hash.value, salted.value)) else Err(INVAL)
    case AsOther => Err(METHOD_NOT_SUPPORTED)
  }

  function KeyOf(key: KeyText): Result<string> {
    match key
    case Encoded(text) => Ok(text)
    case Raw(bytes, behind) =>
      var key := Measured(bytes, behind);
      if key == [] then Err(ALLOC) else Ok(Encode(key))
  }

  /** The entry that one call of the adder stores, or the code it fails with. */
  function Stored(format: NameFormat, host: string, salt: string, typeName: Option<string>,
                  key: KeyText, comment: Option<string>, keyType: KeyType): Result<KnownHost>
  {
    if keyType == Unset then Err(INVAL)
    else
      var name := NameOf(format, host, salt);
      if name.Err? then Err(name.rc)
      else
        var text := KeyOf(key);
        if text.Err? then Err(text.rc)
        else Ok(KnownHost(name.value, keyType, text.value, if keyType == Unknown then typeName else None, comment))
  }
}

/** One line of a known_hosts file: what it says and how it is printed. */
module KnownHostLine {
  import opened Words
  import opened Base64
  import opened KnownHostEntry

  datatype LineOutcome = LineOutcome(rc: int, hosts: seq<KnownHost>)

  predicate Blank(c: char) { c == ' ' || c == '\t' }
  predicate Visible(c: char) { !Blank(c) }
  predicate NotBar(c: char) { c != '|' }
  predicate Digit(c: char) { '0' <= c <= '9' }

  /** How many leading characters satisfy p. */
  function Run(p: char -> bool, s: string): (n: nat)
    ensures n <= |s|
    ensures forall i | 0 <= i < n :: p(s[i])
    ensures n < |s| ==> !p(s[n])
  {
    if s == "" || !p(s[0]) then 0 else 1 + Run(p, s[1..])
  }

  lemma {:induction false} RunIs(p: char -> bool, s: string, n: nat)
    requires n <= |s|
    requires forall i | 0 <= i < n :: p(s[i])
    requires n < |s| ==> !p(s[n])
    ensures Run(p, s) == n
  {
    if n > 0 {
      assert p(s[0]);
      RunIs(p, s[1..], n - 1);
    }
  }

  /** s without its leading blanks. */
  function Trimmed(s: string): (t: string)
    ensures |t| <= |s|
    ensures t != "" ==> !Blank(t[0])
  {
    s[Run(Blank, s)..]
  }

  predicate NotZero(c: char) { c != '\0' }

  /** What the C library takes a text for: it ends at the first zero. */
  function CString(text: string): (s: string)
    ensures |s| <= |text|
  {
    text[..Run(NotZero, text)]
  }

  // Parsing the key part.

  const DSS := "ssh-dss"
  const RSA := "ssh-rsa"
  const ECDSA256 := "ecdsa-sha2-nistp256"
  const ECDSA384 := "ecdsa-sha2-nistp384"
  const ECDSA521 := "ecdsa-sha2-nistp521"
  const ED25519 := "ssh-ed25519"

  /** The comparison runs over the given name's length only, so a proper prefix of a known name passes for it. */
  function Classify(name: string): (t: KeyType)
    ensures t != Unset && t != Rsa1 && !t.Unassigned?
  {
    if name <= DSS then SshDss
    else if name <= RSA then SshRsa
    else if name <= ECDSA256 then Ecdsa256
    else if name <= ECDSA384 then Ecdsa384
    else if name <= ECDSA521 then Ecdsa521
    else if name <= ED25519 then Ed25519
    else Unknown
  }

  datatype KeyFields = KeyFields(keyType: KeyType, typeName: Option<string>, key: string, comment: Option<string>)

  /** The key part of a line; tail is what follows it in memory, a newline or nothing. */
  function ParseKey(key: string, tail: string): KeyFields
    requires key != ""
  {
    if Digit(key[0]) then KeyFields(Rsa1, None, key, None)
    else
      var n := Run(Visible, key);
      TypedFields(key[..n], Trimmed(key[n..]), tail)
  }

  /** The fields when the key part starts with a type name; rest is what follows the name and its blanks. */
  function TypedFields(name: string, rest: string, tail: string): KeyFields {
    var keyType := Classify(name);
    var m := Run(Visible, rest);
    KeyFields(keyType, if keyType == Unknown then Some(name) else None,
              if m == 0 then tail else rest[..m],
              if m == |rest| then None else Some(Trimmed(rest[m..])))
  }

  function Entry(host: HostName, f: KeyFields): KnownHost {
    KnownHost(host, f.keyType, f.key, f.typeName, f.comment)
  }

  // Plain host names, separated by commas.

  /** The position of the last comma before position n, or -1. */
  function LastComma(host: string, n: nat): (k: int)
    requires n <= |host|
    ensures -1 <= k < n
    ensures k >= 0 ==> host[k] == ','
    ensures forall i | k < i < n :: host[i] != ','
  {
    if n == 0 then -1 else if host[n - 1] == ',' then n - 1 else LastComma(host, n - 1)
  }

  lemma {:induction false} LastCommaIs(host: string, n: nat, k: int)
    requires n <= |host|
    requires -1 <= k < n
    requires k >= 0 ==> host[k] == ','
    requires forall i | k < i < n :: host[i] != ','
    ensures LastComma(host, n) == k
  {
    if k < n - 1 {
      assert host[n - 1] != ',';
      LastCommaIs(host, n - 1, k);
    }
  }

  /** The names from right to left; a comma at the very end belongs to the last name. */
  function RightSplit(host: string): (names: seq<string>)
  {
    if host == "" then []
    else
      var k := LastComma(host, |host| - 1);
      if k < 0 then [host] else [host[k + 1..]] + RightSplit(host[..k])
  }

  /** Adds the names one by one, until one does not fit the buffer. */
  function AddNames(hosts: seq<KnownHost>, names: seq<string>, f: KeyFields): LineOutcome
    decreases |names|
  {
    if names == [] then LineOutcome(0, hosts)
    else if |names[0]| >= 255 then LineOutcome(METHOD_NOT_SUPPORTED, hosts)
    else AddNames(hosts + [Entry(Plain(names[0]), f)], names[1..], f)
  }

  function OldstyleLine(hosts: seq<KnownHost>, host: string, f: KeyFields): LineOutcome {
    if host == "" then LineOutcome(METHOD_NOT_SUPPORTED, hosts) else AddNames(hosts, RightSplit(host), f)
  }

  /** A hashed host; the salt is looked for in the whole text, which starts with the hostlen characters of the host. */
  function HashedLine(hosts: seq<KnownHost>, text: string, hostlen: nat, f: KeyFields): LineOutcome
    requires 3 <= |text| && hostlen <= |text|
  {
    var salt := text[3..];
    var saltlen := Run(NotBar, salt);
    if saltlen == |salt| then LineOutcome(0, hosts)
    else
      var remaining := hostlen - 4 - saltlen;
      if saltlen >= 31 || remaining < 0 || remaining >= 255 then LineOutcome(METHOD_NOT_SUPPORTED, hosts)
      else
        var name := NameOf(AsSha1, salt[saltlen + 1..][..remaining], salt[..saltlen]);
        if name.Err? then LineOutcome(name.rc, hosts) else LineOutcome(0, hosts + [Entry(name.value, f)])
  }

  const MARKER := "|1|"

  function HostLine(hosts: seq<KnownHost>, text: string, hostlen: nat, key: string, tail: string): LineOutcome
    requires hostlen + 1 + |key| <= |text|
  {
    if |key| < 20 then LineOutcome(METHOD_NOT_SUPPORTED, hosts)
    else
      var f := ParseKey(key, tail);
      if hostlen > 2 && !(MARKER <= text[..hostlen]) then OldstyleLine(hosts, text[..hostlen], f)
      else HashedLine(hosts, text, hostlen, f)
  }

  /** A line of a file: no character NUL, and a newline only at the end. */
  ghost predicate IsLine(s: string) {
    forall i | 0 <= i < |s| :: s[i] != '\0' && (s[i] == '\n' ==> i == |s| - 1)
  }

  function Tail(s: string): string {
    if s != "" && s[|s| - 1] == '\n' then "\n" else ""
  }

  /** The whole reading of one line. */
  function ReadLine(hosts: seq<KnownHost>, line: string): LineOutcome {
    var text := Trimmed(line);
    if text == "" || text[0] == '#' || text[0] == '\n' then LineOutcome(0, hosts)
    else
      var hostlen := Run(Visible, text);
      var key := Trimmed(text[hostlen..]);
      if key == "" then LineOutcome(METHOD_NOT_SUPPORTED, hosts)
      else HostLine(hosts, text, hostlen, key[..|key| - |Tail(key)|], Tail(key))
  }

  // Printing.

  /** The key type as it is printed: nothing for RSA1; None when such an entry cannot be printed. */
  function TypeText(e: KnownHost): Option<string> {
    match e.keyType
    case Rsa1 => Some("")
    case SshRsa => Some(RSA)
    case SshDss => Some(DSS)
    case Ecdsa256 => Some(ECDSA256)
    case Ecdsa384 => Some(ECDSA384)
    case Ecdsa521 => Some(ECDSA521)
    case Ed25519 => Some(ED25519)
    case Unknown => e.typeName
    case _ => None
  }

  function HostText(h: HostName): string {
    match h
    case Hashed(hash, salt) => MARKER + Encode(salt) + "|" + Encode(hash)
    case Plain(name) => name
    case Custom(name) => name
  }

  function KeyPart(e: KnownHost): string
    requires TypeText(e).Some?
  {
    (if TypeText(e).value == "" then "" else TypeText(e).value + " ") + e.key +
    (if e.comment.Some? then " " + e.comment.value else "")
  }

  function Assembled(host: string, part: string): string {
    host + (" " + part + "\n")
  }

  /** The printed line. */
  function Line(e: KnownHost): string
    requires TypeText(e).Some?
  {
    Assembled(HostText(e.host), KeyPart(e))
  }
}
