/** Looking a host and its key up in the collection. */
module KnownHostCheck {
  import opened Words
  import opened Base64
  import opened KnownHostEntry
  import opened KnownHostLine
  import opened KnownHostStore

  /** The keyed SHA-1 digest of a text. */
  type Hmac = (seq<byte>, string) -> seq<byte>

  const DIGEST_LENGTH := 20
  const HOSTBUFF := 270

  /** The four results, with the position of the entry handed out. */
  datatype Answer = Match(at: nat) | Mismatch(bad: Option<nat>) | NotFound | Failure

  // What a lookup asks of one entry.

  datatype Query = Query(format: NameFormat, key: string, keyType: KeyType, hmac: Hmac)

  predicate NameAgrees(q: Query, host: string, h: HostName) {
    match h
    case Plain(name) => q.format == AsPlain && host == name
    case Custom(name) => q.format == AsCustom && host == name
    case Hashed(hash, salt) => q.format == AsPlain && |hash| == DIGEST_LENGTH && q.hmac(salt, host) == hash
  }

  /** No type given takes any entry; an unknown type takes none. */
  predicate TypeAgrees(q: Query, keyType: KeyType) {
    q.keyType != Unknown && (q.keyType == Unset || q.keyType == keyType)
  }

  predicate Candidate(q: Query, host: string, e: KnownHost) {
    NameAgrees(q, host, e.host) && TypeAgrees(q, e.keyType)
  }

  predicate Exact(q: Query, host: string, e: KnownHost) {
    Candidate(q, host, e) && e.key == q.key
  }

  // The order of the search: all entries for the first name, then all entries for the second.

  /** The first entry of one pass over the list that gives the host its key. */
  ghost predicate ExactAt(q: Query, name: string, hosts: seq<KnownHost>, at: nat) {
    at < |hosts| && Exact(q, name, hosts[at]) && forall i | 0 <= i < at :: !Exact(q, name, hosts[i])
  }

  ghost predicate CandidateAt(q: Query, name: string, hosts: seq<KnownHost>, at: nat) {
    at < |hosts| && Candidate(q, name, hosts[at]) && forall i | 0 <= i < at :: !Candidate(q, name, hosts[i])
  }

  ghost predicate NoExact(q: Query, name: string, hosts: seq<KnownHost>) {
    forall e <- hosts :: !Exact(q, name, e)
  }

  ghost predicate NoCandidate(q: Query, name: string, hosts: seq<KnownHost>) {
    forall e <- hosts :: !Candidate(q, name, e)
  }

  /** In order of (pass, position), the first entry whose host, key type and key agree. */
  ghost predicate FirstExact(q: Query, names: seq<string>, hosts: seq<KnownHost>, pass: nat, at: nat) {
    pass < |names| && ExactAt(q, names[pass], hosts, at) && forall p | 0 <= p < pass :: NoExact(q, names[p], hosts)
  }

  /** In order of (pass, position), the first entry whose host and key type agree. */
  ghost predicate FirstCandidate(q: Query, names: seq<string>, hosts: seq<KnownHost>, pass: nat, at: nat) {
    pass < |names| && CandidateAt(q, names[pass], hosts, at)
    && forall p | 0 <= p < pass :: NoCandidate(q, names[p], hosts)
  }

  /** What the documentation promises of the answer. */
  ghost predicate Answers(q: Query, names: seq<string>, hosts: seq<KnownHost>, a: Answer) {
    match a
    case Match(at) => exists pass: nat :: FirstExact(q, names, hosts, pass, at)
    case Mismatch(at) =>
      && (forall name <- names :: NoExact(q, name, hosts))
      && at.Some? && exists pass: nat :: FirstCandidate(q, names, hosts, pass, at.value)
    case NotFound => forall name <- names :: NoCandidate(q, name, hosts)
    case Failure => false
  }

  function Decimal(n: nat): string {
    if n < 10 then [('0' as int + n) as char] else Decimal(n / 10) + [('0' as int + n % 10) as char]
  }

  /** The name with its port. */
  function WithPort(host: string, port: nat): string {
    "[" + host + "]:" + Decimal(port)
  }

  /** The names looked up, in their order. */
  function Names(host: string, port: int): seq<string> {
    if port >= 0 then [WithPort(host, port), host] else [host]
  }

  predicate TooLong(host: string, port: int) {
    port >= 0 && |WithPort(host, port)| >= HOSTBUFF
  }

  /** One pass over the list; badkey is the candidate remembered from earlier on. */
  method Pass(q: Query, host: string, hosts: seq<KnownHost>, badkey: Option<nat>)
    returns (found: Option<nat>, bad: Option<nat>)
    ensures found.Some? ==> ExactAt(q, host, hosts, found.value) && bad == None
    ensures found.None? ==> NoExact(q, host, hosts)
    ensures found.None? && badkey.Some? ==> bad == badkey
    ensures found.None? && badkey.None? && bad.None? ==> NoCandidate(q, host, hosts)
    ensures found.None? && badkey.None? && bad.Some? ==> CandidateAt(q, host, hosts, bad.value)
  {
    bad := badkey;
    var matched := false;
    var node := 0;
    while node < |hosts|
      invariant 0 <= node <= |hosts| && !matched
      invariant forall i | 0 <= i < node :: !Exact(q, host, hosts[i])
      invariant badkey.Some? ==> bad == badkey
      invariant badkey.None? && bad.None? ==> forall i | 0 <= i < node :: !Candidate(q, host, hosts[i])
      invariant badkey.None? && bad.Some? ==> bad.value < node && CandidateAt(q, host, hosts, bad.value)
    {
      match hosts[node].host {
        case Plain(name) =>
          if q.format == AsPlain {
            matched := host == name;
          }
        case Custom(name) =>
          if q.format == AsCustom {
            matched := host == name;
          }
        case Hashed(hash, salt) =>
          if q.format == AsPlain && DIGEST_LENGTH == |hash| && q.hmac(salt, host) == hash {
            matched := true;
          }
      }
      if matched {
        if q.keyType != Unknown && (q.keyType == Unset || q.keyType == hosts[node].keyType) {
          if q.key == hosts[node].key {
            return Some(node), None;
          } else if bad.None? {
            bad := Some(node);
          }
        }
        matched := false;
      }
      node := node + 1;
    }
    found := None;
  }

  /** The check of a host, its port if that is not negative, and its key. */
  method Check(store: KnownHosts, hostp: string, port: int, given: KeyText, format: NameFormat,
               keyType: KeyType, hmac: Hmac) returns (answer: Answer)
    ensures format == AsSha1 ==> answer == Mismatch(None)
    ensures format != AsSha1 && (TooLong(hostp, port) || KeyOf(given).Err?) ==> answer == Failure
    ensures format != AsSha1 && !TooLong(hostp, port) && KeyOf(given).Ok? ==>
              Answers(Query(format, KeyOf(given).value, keyType, hmac), Names(hostp, port), store.hosts, answer)
  {
    if format == AsSha1 {
      return Mismatch(None);
    }
    var host, numcheck := hostp, 1;
    if port >= 0 {
      host := WithPort(hostp, port);
      if |host| >= HOSTBUFF {
        return Failure;
      }
      numcheck := 2;
    }
    var key: string;
    match given {
      case Encoded(text) => key := text;
      case Raw(bytes, behind) =>
        key := EncodeBytes(bytes, behind);
        EncodeShape(Measured(bytes, behind));
        if |key| == 0 {
          return Failure;
        }
    }
    answer := Search(Query(format, key, keyType, hmac), host, hostp, numcheck, store.hosts);
    assert numcheck == 2 ==> [host, hostp] == Names(hostp, port);
  }

  /** The two passes, or the one. */
  method Search(q: Query, first: string, hostp: string, numcheck: nat, hosts: seq<KnownHost>) returns (answer: Answer)
    requires numcheck == 2 || (numcheck == 1 && first == hostp)
    ensures Answers(q, if numcheck == 2 then [first, hostp] else [hostp], hosts, answer)
  {
    ghost var names := if numcheck == 2 then [first, hostp] else [hostp];
    var host, left := first, numcheck;
    var badkey: Option<nat> := None;
    ghost var pass, badPass: nat := 0, 0;
    while left > 0
      invariant pass + left == |names| && (left > 0 ==> host == names[pass])
      invariant forall p | 0 <= p < pass :: NoExact(q, names[p], hosts)
      invariant badkey.None? ==> forall p | 0 <= p < pass :: NoCandidate(q, names[p], hosts)
      invariant badkey.Some? ==> FirstCandidate(q, names, hosts, badPass, badkey.value)
    {
      ghost var before := badkey;
      var found;
      found, badkey := Pass(q, host, hosts, badkey);
      if found.Some? {
        assert FirstExact(q, names, hosts, pass, found.value);
        return Match(found.value);
      }
      if before.None? {
        badPass := pass;
      }
      host := hostp;
      left := left - 1;
      pass := pass + 1;
    }
    if badkey.Some? {
      return Mismatch(badkey);
    }
    return NotFound;
  }

  /** No collection gives two different answers to one question. */
  lemma AnswerIsUnique(q: Query, names: seq<string>, hosts: seq<KnownHost>, a: Answer, b: Answer)
    requires Answers(q, names, hosts, a) && Answers(q, names, hosts, b)
    ensures a == b
  {
    ExactHolds(q, names, hosts, a);
    ExactHolds(q, names, hosts, b);
    match (a, b)
    case (Match(i), Match(j)) =>
      var p: nat :| FirstExact(q, names, hosts, p, i);
      var r: nat :| FirstExact(q, names, hosts, r, j);
    case (Mismatch(i), Mismatch(j)) =>
      var p: nat :| FirstCandidate(q, names, hosts, p, i.value);
      var r: nat :| FirstCandidate(q, names, hosts, r, j.value);
    case (_, _) =>
  }

  ghost predicate SomeExact(q: Query, names: seq<string>, hosts: seq<KnownHost>) {
    exists name, e :: name in names && e in hosts && Exact(q, name, e)
  }

  ghost predicate SomeCandidate(q: Query, names: seq<string>, hosts: seq<KnownHost>) {
    exists name, e :: name in names && e in hosts && Candidate(q, name, e)
  }

  /** Which of the answers it is depends only on the entries there are, not on their order. */
  lemma ExactHolds(q: Query, names: seq<string>, hosts: seq<KnownHost>, a: Answer)
    requires Answers(q, names, hosts, a)
    ensures a.Match? <==> SomeExact(q, names, hosts)
    ensures a.NotFound? <==> !SomeCandidate(q, names, hosts)
    ensures !a.Failure?
  {
    match a
    case Match(at) =>
      var p: nat :| FirstExact(q, names, hosts, p, at);
      assert names[p] in names && hosts[at] in hosts;
    case Mismatch(at) =>
      var p: nat :| FirstCandidate(q, names, hosts, p, at.value);
      assert names[p] in names && hosts[at.value] in hosts;
    case _ =>
  }

  /** Adding entries never turns a match into anything else; a match on either part is a match on both together. */
  lemma MatchOfParts(q: Query, names: seq<string>, hosts: seq<KnownHost>, more: seq<KnownHost>,
                     a: Answer, b: Answer, both: Answer)
    requires Answers(q, names, hosts, a) && Answers(q, names, more, b) && Answers(q, names, hosts + more, both)
    ensures both.Match? <==> a.Match? || b.Match?
    ensures both.NotFound? <==> a.NotFound? && b.NotFound?
  {
    ExactHolds(q, names, hosts, a);
    ExactHolds(q, names, more, b);
    ExactHolds(q, names, hosts + more, both);
    if SomeExact(q, names, hosts + more) {
      var name, e :| name in names && e in hosts + more && Exact(q, name, e);
      assert e in hosts || e in more;
    }
  }

  /** A host that was added under its plain name, with a known key type, is found with its key. */
  lemma AddedIsFound(hosts: seq<KnownHost>, host: string, port: int, key: KeyText, comment: Option<string>,
                     keyType: KeyType, hmac: Hmac, e: KnownHost, a: Answer)
    requires keyType != Unknown && Stored(AsPlain, host, "", None, key, comment, keyType) == Ok(e)
    requires Answers(Query(AsPlain, e.key, keyType, hmac), Names(host, port), hosts + [e], a)
    ensures a.Match?
  {
    var q := Query(AsPlain, e.key, keyType, hmac);
    assert e in hosts + [e] && host in Names(host, port);
    assert Exact(q, host, e);
    ExactHolds(q, Names(host, port), hosts + [e], a);
  }

  /** So is a host that was added as the keyed hash of its name. */
  lemma AddedHashIsFound(hosts: seq<KnownHost>, host: string, port: int, salt: seq<byte>, key: KeyText,
                         comment: Option<string>, keyType: KeyType, hmac: Hmac, e: KnownHost, a: Answer)
    requires keyType != Unknown && |hmac(salt, host)| == DIGEST_LENGTH
    requires Stored(AsSha1, Encode(hmac(salt, host)), Encode(salt), None, key, comment, keyType) == Ok(e)
    requires Answers(Query(AsPlain, e.key, keyType, hmac), Names(host, port), hosts + [e], a)
    ensures a.Match?
  {
    DecodeInvertsEncode(salt);
    DecodeInvertsEncode(hmac(salt, host));
    var q := Query(AsPlain, e.key, keyType, hmac);
    assert e in hosts + [e] && host in Names(host, port);
    assert Exact(q, host, e);
    ExactHolds(q, Names(host, port), hosts + [e], a);
  }
}
