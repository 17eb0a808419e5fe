/** Looking up a host by its port: which spelling is looked for, and what the answer names. */
module KnownHostPort {
  import opened Base64
  import opened KnownHostEntry
  import opened KnownHostLine
  import opened KnownHostStore
  import opened KnownHostCheck

  // Decimal numbers.

  ghost predicate Digits(p: string) { p != "" && forall i | 0 <= i < |p| :: '0' <= p[i] <= '9' }

  function Value(p: string): int
    requires forall i | 0 <= i < |p| :: '0' <= p[i] <= '9'
  {
    if p == "" then 0 else 10 * Value(p[..|p| - 1]) + (p[|p| - 1] as int - '0' as int)
  }

  /** p is the number in decimal digits, without a zero in front. */
  ghost predicate Spells(p: string, n: nat) {
    Digits(p) && Value(p) == n && (|p| > 1 ==> p[0] != '0')
  }

  lemma {:induction false} ValueBound(p: string)
    requires Digits(p)
    ensures Value(p) >= 0 && (p[0] != '0' ==> Value(p) > 0)
  {
    if |p| > 1 {
      ValueBound(p[..|p| - 1]);
    }
  }

  lemma {:induction false} DecimalSpells(n: nat)
    ensures Spells(Decimal(n), n)
  {
    if n >= 10 {
      var q, d := Decimal(n / 10), ('0' as int + n % 10) as char;
      DecimalSpells(n / 10);
      ValueBound(q);
      assert (q + [d])[..|q|] == q;
    }
  }

  /** A number is spelled in one way. */
  lemma {:induction false} SpelledOnce(p: string, n: nat)
    requires Spells(p, n)
    ensures p == Decimal(n)
    decreases |p|
  {
    var front, d := p[..|p| - 1], p[|p| - 1] as int - '0' as int;
    if front == "" {
      assert Value(p) == d;
    } else {
      ValueBound(front);
      assert front[0] == p[0];
      assert n == 10 * Value(front) + d;
      SpelledOnce(front, Value(front));
      assert p == front + [p[|p| - 1]];
    }
  }

  // The names.

  /** With a port the bracketed name is looked for first and then the plain one; without one, the plain one alone. */
  lemma NamesAre(host: string, port: int, p: string)
    requires port >= 0 ==> Spells(p, port)
    ensures Names(host, port) == if port >= 0 then ["[" + host + "]:" + p, host] else [host]
    ensures TooLong(host, port) <==> port >= 0 && |host| + |p| + 3 >= 270
  {
    if port >= 0 {
      SpelledOnce(p, port);
    }
  }

  /** A host added under its bracketed name and port, with a known type, is found with its key. */
  lemma AddedWithPortIsFound(hosts: seq<KnownHost>, host: string, port: nat, p: string, key: KeyText,
                             comment: Option<string>, keyType: KeyType, hmac: Hmac, e: KnownHost, a: Answer)
    requires Spells(p, port) && keyType != Unknown
    requires Stored(AsPlain, "[" + host + "]:" + p, "", None, key, comment, keyType) == Ok(e)
    requires Answers(Query(AsPlain, e.key, keyType, hmac), Names(host, port), hosts + [e], a)
    ensures a.Match?
  {
    hide Decimal, WithPort;
    NamesAre(host, port, p);
    var q := Query(AsPlain, e.key, keyType, hmac);
    var name := "[" + host + "]:" + p;
    assert e in hosts + [e] && name in Names(host, port);
    assert Exact(q, name, e);
    ExactHolds(q, Names(host, port), hosts + [e], a);
  }

  /** An entry of a plain name, and of the type and key looked for. */
  ghost predicate Holds(e: KnownHost, name: string, keyType: KeyType, key: string) {
    e.host == Plain(name) && e.keyType == keyType && e.key == key
  }

  /** When one entry has the bracketed name and the key, it is one for the bracketed name that is handed out, whatever
      there is for the plain name: the first of them. */
  lemma PortComesFirst(hosts: seq<KnownHost>, host: string, port: nat, p: string, keyType: KeyType, key: string,
                       hmac: Hmac, i: nat, a: Answer)
    requires Spells(p, port) && keyType != Unknown && keyType != Unset
    requires i < |hosts| && Holds(hosts[i], "[" + host + "]:" + p, keyType, key)
    requires Answers(Query(AsPlain, key, keyType, hmac), Names(host, port), hosts, a)
    ensures a.Match? && a.at <= i
    ensures var e, name := hosts[a.at], "[" + host + "]:" + p;
            && e.keyType == keyType && e.key == key
            && (e.host.Plain? ==> e.host.name == name)
            && (e.host.Hashed? ==> |e.host.hash| == 20 && hmac(e.host.salt, name) == e.host.hash)
            && !e.host.Custom?
            && forall j | 0 <= j < a.at :: !Holds(hosts[j], name, keyType, key)
  {
    hide Decimal, WithPort;
    NamesAre(host, port, p);
    var q, name := Query(AsPlain, key, keyType, hmac), "[" + host + "]:" + p;
    var names := Names(host, port);
    assert names[0] == name;
    assert Exact(q, name, hosts[i]) && hosts[i] in hosts && name in names;
    ExactHolds(q, names, hosts, a);
    assert !NoExact(q, names[0], hosts);
    var pass: nat :| FirstExact(q, names, hosts, pass, a.at);
    assert pass == 0;
    assert ExactAt(q, name, hosts, a.at);
  }

  /** Without a port an answer that names an entry names one of exactly the host asked for. */
  lemma PlainOnly(hosts: seq<KnownHost>, host: string, port: int, q: Query, a: Answer, at: nat)
    requires port < 0 && Answers(q, Names(host, port), hosts, a)
    requires a == Match(at) || a == Mismatch(Some(at))
    ensures at < |hosts|
    ensures var e := hosts[at];
            && (e.host.Plain? ==> e.host.name == host && q.format == AsPlain)
            && (e.host.Custom? ==> e.host.name == host && q.format == AsCustom)
            && (e.host.Hashed? ==>
                  |e.host.hash| == 20 && q.hmac(e.host.salt, host) == e.host.hash && q.format == AsPlain)
            && q.keyType != Unknown && (q.keyType == Unset || q.keyType == e.keyType)
            && (a.Match? <==> e.key == q.key)
  {
    NamesAre(host, port, "");
    if a.Match? {
      var pass: nat :| FirstExact(q, [host], hosts, pass, at);
    } else {
      var pass: nat :| FirstCandidate(q, [host], hosts, pass, at);
      assert host in [host] && hosts[at] in hosts;
    }
  }

  /** With a port the entry is one of the bracketed or of the plain name. */
  lemma EitherName(hosts: seq<KnownHost>, host: string, port: nat, p: string, q: Query, a: Answer, at: nat)
    requires Spells(p, port) && Answers(q, Names(host, port), hosts, a)
    requires a == Match(at) || a == Mismatch(Some(at))
    ensures at < |hosts|
    ensures var e, name := hosts[at], "[" + host + "]:" + p;
            && (e.host.Plain? ==> (e.host.name == name || e.host.name == host) && q.format == AsPlain)
            && (e.host.Custom? ==> (e.host.name == name || e.host.name == host) && q.format == AsCustom)
            && (e.host.Hashed? ==> q.hmac(e.host.salt, name) == e.host.hash || q.hmac(e.host.salt, host) == e.host.hash)
            && (a.Match? ==> e.key == q.key)
  {
    hide Decimal, WithPort;
    NamesAre(host, port, p);
    var names := Names(host, port);
    if a.Match? {
      var pass: nat :| FirstExact(q, names, hosts, pass, at);
      assert names[pass] == names[0] || names[pass] == names[1];
    } else {
      var pass: nat :| FirstCandidate(q, names, hosts, pass, at);
      assert names[pass] == names[0] || names[pass] == names[1];
    }
  }
}
