/** Per-host certificates and their cache: src/cert/ca.ts, and the Rust version in
    cnproxy-core/src/cert.rs whose cache lock is dropped between lookup and insert. */
module Certs {
  import opened Prelude
  import opened Text
  import opened Lru

  datatype San = IpName(ip: string) | DnsName(name: string)

  /** A minted leaf certificate, by the names it is good for. */
  datatype Cert = Cert(commonName: string, sans: seq<San>)

  type IpTest = string -> bool

  /** What is assumed of the platform's IP address test: an address begins with a hexadecimal digit or a
      colon. */
  ghost predicate IpSyntax(isIp: IpTest) {
    forall s :: isIp(s) ==> s != [] && (s[0] == ':' || '0' <= s[0] <= '9' || 'a' <= s[0] <= 'f' || 'A' <= s[0] <= 'F')
  }

  /** a.b.com becomes *.b.com; addresses and names of one or two labels stay as they are. */
  function WildcardKey(isIp: IpTest, host: string): string {
    if isIp(host) then host
    else
      var parts := Split(host, ".");
      if |parts| >= 3 then "*." + Join(parts[1..], ".") else host
  }

  predicate StartsWild(name: string) {
    "*." <= name
  }

  /** The subject alternative names of a leaf. */
  function Sans(isIp: IpTest, host: string, key: string): seq<San> {
    if isIp(host) then [IpName(host)]
    else
      [DnsName(key)]
      + (if StartsWild(key) then [DnsName(key[2..])] else [])
      + (if key != host then [DnsName(host)] else [])
  }

  function Mint(isIp: IpTest, host: string): Cert {
    var key := WildcardKey(isIp, host);
    Cert(key, Sans(isIp, host, key))
  }

  method MintLeaf(isIp: IpTest, servername: string, wildcard: string) returns (c: Cert)
    ensures c == Cert(wildcard, Sans(isIp, servername, wildcard))
  {
    var altNames: seq<San> := [];
    if isIp(servername) {
      altNames := altNames + [IpName(servername)];
    } else {
      altNames := altNames + [DnsName(wildcard)];
      if StartsWild(wildcard) {
        altNames := altNames + [DnsName(wildcard[2..])];
      }
      if wildcard != servername {
        altNames := altNames + [DnsName(servername)];
      }
    }
    c := Cert(wildcard, altNames);
  }

  // ---- when a certificate covers a host ----

  /** One non-empty label followed by the given suffix (RFC 6125, section 6.4.3). */
  predicate OneLabelBefore(host: string, suffix: string) {
    |host| > |suffix| && host[|host| - |suffix|..] == suffix && '.' !in host[..|host| - |suffix|]
  }

  predicate SanCovers(isIp: IpTest, san: San, host: string) {
    match san
    case IpName(ip) => isIp(host) && ip == host
    case DnsName(name) => !isIp(host) && (name == host || (StartsWild(name) && OneLabelBefore(host, name[1..])))
  }

  predicate Covers(isIp: IpTest, c: Cert, host: string) {
    exists i | 0 <= i < |c.sans| :: SanCovers(isIp, c.sans[i], host)
  }

  // ---- sharing one certificate under a collapsed key ----

  /** The label structure of a host: its position among the cases of WildcardKey. */
  predicate Collapses(isIp: IpTest, host: string) {
    !isIp(host) && |Split(host, ".")| >= 3
  }

  function AfterFirstDot(host: string): string
    requires IndexOf(host, ".").Some?
  {
    host[IndexOf(host, ".").value + 1..]
  }

  lemma SplitParts(host: string)
    ensures |Split(host, ".")| >= 3 <==>
              IndexOf(host, ".").Some? && IndexOf(AfterFirstDot(host), ".").Some?
    ensures |Split(host, ".")| >= 3 ==> Join(Split(host, ".")[1..], ".") == AfterFirstDot(host)
  {
    hide IndexOf, Join;
    if IndexOf(host, ".").Some? {
      var rest := AfterFirstDot(host);
      assert Split(host, ".")[1..] == Split(rest, ".");
      SplitPieces(rest, ".");
    }
  }

  /** Around the first dot of a string. */
  lemma FirstDot(s: string)
    ensures IndexOf(s, ".").Some? <==> '.' in s
    ensures IndexOf(s, ".").Some? ==>
              var i := IndexOf(s, ".").value;
              i < |s| && s[i] == '.' && s == s[..i] + "." + s[i + 1..] && '.' !in s[..i] &&
              forall j | 0 <= j < i :: s[j] != '.'
  {
    hide IndexOf, OccursAt;
    forall j: nat
      ensures OccursAt(s, ".", j) <==> j < |s| && s[j] == '.'
    {
      DotAt(s, j);
    }
    if IndexOf(s, ".").Some? {
      var i := IndexOf(s, ".").value;
      assert OccursAt(s, ".", i);
      assert forall j: nat | j < i :: !OccursAt(s, ".", j);
      assert s == s[..i] + [s[i]] + s[i + 1..];
    }
  }

  lemma DotAt(s: string, j: nat)
    ensures OccursAt(s, ".", j) <==> j < |s| && s[j] == '.'
  {
    if j < |s| {
      assert s[j..j + 1] == [s[j]];
    }
  }

  /** A collapsing host is its first label, a dot, and the part that its key keeps. */
  lemma CollapsedKey(isIp: IpTest, host: string)
    requires Collapses(isIp, host)
    ensures IndexOf(host, ".").Some?
    ensures WildcardKey(isIp, host) == "*." + AfterFirstDot(host)
    ensures '.' in AfterFirstDot(host)
    ensures var i := IndexOf(host, ".").value;
            i < |host| && host == host[..i] + "." + AfterFirstDot(host) && '.' !in host[..i]
  {
    hide IndexOf, Split, Join;
    SplitParts(host);
    FirstDot(host);
    FirstDot(AfterFirstDot(host));
  }

  /** A key of wildcard form is itself a name that collapses to it. */
  lemma WildcardIsOwnKey(isIp: IpTest, suffix: string)
    requires IpSyntax(isIp) && '.' in suffix
    ensures Collapses(isIp, "*." + suffix) && AfterFirstDot("*." + suffix) == suffix
  {
    hide IndexOf, Split, Join;
    var s := "*." + suffix;
    SplitParts(s);
    FirstDot(s);
    FirstDot(suffix);
    assert s[1] == '.';
  }

  lemma DotIndex(s: string)
    requires |s| > 1 && s[0] != '.' && s[1] == '.'
    ensures IndexOf(s, ".") == Some(1)
  {
    hide IndexOf;
    FirstDot(s);
  }

  lemma PlainKey(isIp: IpTest, host: string)
    requires !Collapses(isIp, host)
    ensures WildcardKey(isIp, host) == host
  {
    hide Split;
  }

  /** Two different hosts share a key only when both collapse, to the same suffix. */
  lemma SharedKey(isIp: IpTest, h: string, host: string)
    requires IpSyntax(isIp) && WildcardKey(isIp, h) == WildcardKey(isIp, host) && h != host
    ensures Collapses(isIp, h) && Collapses(isIp, host)
    ensures IndexOf(h, ".").Some? && IndexOf(host, ".").Some? && AfterFirstDot(h) == AfterFirstDot(host)
  {
    hide Collapses, WildcardKey, IndexOf;
    if Collapses(isIp, h) {
      CollapsedKey(isIp, h);
      WildcardIsOwnKey(isIp, AfterFirstDot(h));
    } else {
      PlainKey(isIp, h);
    }
    if Collapses(isIp, host) {
      CollapsedKey(isIp, host);
      WildcardIsOwnKey(isIp, AfterFirstDot(host));
    } else {
      PlainKey(isIp, host);
    }
    assert ("*." + AfterFirstDot(host))[2..] == AfterFirstDot(host) || !Collapses(isIp, host);
    assert Collapses(isIp, h) && Collapses(isIp, host) ==>
      ("*." + AfterFirstDot(h))[2..] == ("*." + AfterFirstDot(host))[2..];
  }

  /** The hosts that sharing fails: three or more labels of which the first is empty. */
  predicate EmptyFirstLabel(isIp: IpTest, host: string) {
    Collapses(isIp, host) && host != [] && host[0] == '.'
  }

  /** A certificate covers the host it was minted for. */
  lemma CoversOwn(isIp: IpTest, host: string)
    ensures Covers(isIp, Mint(isIp, host), host)
  {
    hide WildcardKey, StartsWild;
    var c := Mint(isIp, host);
    var last := |c.sans| - 1;
    assert SanCovers(isIp, c.sans[0], host) || SanCovers(isIp, c.sans[last], host);
  }

  /** A certificate for a.b.com covers b.com as well, unless that part reads as an address. */
  lemma CoversParentIff(isIp: IpTest, host: string)
    requires Collapses(isIp, host)
    ensures IndexOf(host, ".").Some? && host[..IndexOf(host, ".").value] + "." + AfterFirstDot(host) == host
    ensures Covers(isIp, Mint(isIp, host), AfterFirstDot(host)) <==> !isIp(AfterFirstDot(host))
  {
    hide WildcardKey, Collapses, IndexOf, AfterFirstDot;
    CollapsesIsName(isIp, host);
    CollapsedKey(isIp, host);
    var key := WildcardKey(isIp, host);
    assert key[2..] == AfterFirstDot(host);
    assert SanCovers(isIp, Mint(isIp, host).sans[1], AfterFirstDot(host)) <==> !isIp(AfterFirstDot(host));
  }

  /** With a first label that is not empty, the wildcard name covers every host of the key. */
  lemma WildcardCovers(isIp: IpTest, h: string, host: string)
    requires WildcardKey(isIp, h) == WildcardKey(isIp, host) && !isIp(h)
    requires Collapses(isIp, host) && host[0] != '.'
    ensures Covers(isIp, Mint(isIp, h), host)
  {
    hide WildcardKey, Collapses, IndexOf;
    assert !isIp(host) by { CollapsesIsName(isIp, host); }
    CollapsedKey(isIp, host);
    var key := WildcardKey(isIp, host);
    var i := IndexOf(host, ".").value;
    var suffix := key[1..];
    assert suffix == "." + AfterFirstDot(host);
    assert host[i..] == suffix && |host| - |suffix| == i;
    assert i > 0 by {
      FirstDot(host);
    }
    assert OneLabelBefore(host, suffix);
    assert SanCovers(isIp, Mint(isIp, h).sans[0], host);
  }

  lemma CollapsesIsName(isIp: IpTest, host: string)
    ensures Collapses(isIp, host) ==> !isIp(host)
  {
    hide Split;
  }

  /** A host with an empty first label is a dot and its suffix. */
  lemma EmptyLabelShape(isIp: IpTest, host: string)
    requires EmptyFirstLabel(isIp, host)
    ensures !isIp(host) && IndexOf(host, ".").Some? && host == "." + AfterFirstDot(host)
  {
    hide Split, IndexOf;
    CollapsedKey(isIp, host);
    FirstDot(host);
  }

  /** The other host of a shared key is not of wildcard form, unless it is the key. */
  lemma OtherHostShape(isIp: IpTest, h: string, key: string)
    requires Collapses(isIp, h) && WildcardKey(isIp, h) == key && key != h
    ensures !isIp(h) && !StartsWild(h) && StartsWild(key)
  {
    hide WildcardKey, IndexOf, Split;
    CollapsedKey(isIp, h);
    if StartsWild(h) {
      DotIndex(h);
    }
  }

  /** With an empty first label, a certificate minted for another host of the key does not. */
  lemma EmptyLabelUncovered(isIp: IpTest, h: string, host: string)
    requires IpSyntax(isIp) && WildcardKey(isIp, h) == WildcardKey(isIp, host) && h != host
    requires EmptyFirstLabel(isIp, host)
    ensures !Covers(isIp, Mint(isIp, h), host)
  {
    hide WildcardKey, Collapses, IndexOf, Sans, IpSyntax, OneLabelBefore;
    var key := WildcardKey(isIp, host);
    assert Collapses(isIp, h) && Collapses(isIp, host) by { SharedKey(isIp, h, host); }
    EmptyLabelShape(isIp, host);
    CollapsedKey(isIp, host);
    var suffix := AfterFirstDot(host);
    assert key == "*." + suffix && key[2..] == suffix && |host| == |suffix| + 1;
    NotBefore(host, key);
    NotBefore(host, suffix);
    CollapsesIsName(isIp, h);
    if key != h {
      OtherHostShape(isIp, h, key);
    }
    SansOf(isIp, h, key);
    forall i | 0 <= i < |Mint(isIp, h).sans|
      ensures !SanCovers(isIp, Mint(isIp, h).sans[i], host)
    {
      var san := Sans(isIp, h, key)[i];
      assert san == DnsName(key) || san == DnsName(suffix) || (key != h && san == DnsName(h));
    }
  }

  /** A name that begins with a dot is never one label before the rest of a wildcard of this length. */
  lemma NotBefore(host: string, name: string)
    requires host != [] && host[0] == '.'
    ensures StartsWild(name) ==> !OneLabelBefore(host, name[1..])
  {
    DotBefore(host, |host| - (|name| - 1));
  }

  lemma DotBefore(host: string, n: int)
    requires host != [] && host[0] == '.'
    ensures 0 < n <= |host| ==> '.' in host[..n]
  {
    if 0 < n <= |host| {
      assert host[..n][0] == '.';
    }
  }

  lemma SansOf(isIp: IpTest, h: string, key: string)
    requires !isIp(h)
    ensures forall i | 0 <= i < |Sans(isIp, h, key)| ::
              var san := Sans(isIp, h, key)[i];
              san == DnsName(key) || (StartsWild(key) && san == DnsName(key[2..])) || (key != h && san == DnsName(h))
  {}

  /** A certificate minted for one host of a key covers another host of that key, unless that host's
      first label is empty. */
  lemma SharedCertificate(isIp: IpTest, h: string, host: string)
    requires IpSyntax(isIp) && WildcardKey(isIp, h) == WildcardKey(isIp, host)
    ensures Covers(isIp, Mint(isIp, h), host) <==> h == host || !EmptyFirstLabel(isIp, host)
  {
    hide Covers, Mint, WildcardKey, Collapses, IndexOf, IpSyntax;
    if h == host {
      CoversOwn(isIp, host);
    } else {
      SharedKey(isIp, h, host);
      CollapsesIsName(isIp, h);
      CollapsedKey(isIp, host);
      if host[0] == '.' {
        EmptyLabelUncovered(isIp, h, host);
      } else {
        WildcardCovers(isIp, h, host);
      }
    }
  }

  // ---- sequential runs: src/cert/ca.ts ----

  /** Capacity of both caches of the TypeScript authority, and of the Rust one. */
  const CAPACITY: int := 1024

  function RequestFor(isIp: IpTest, host: string): Request<string, Cert> {
    Request(WildcardKey(isIp, host), Mint(isIp, host))
  }

  function RequestsFor(isIp: IpTest, hosts: seq<string>): seq<Request<string, Cert>> {
    seq(|hosts|, i requires 0 <= i < |hosts| => RequestFor(isIp, hosts[i]))
  }

  /** Every cached certificate was minted for some host of its key. */
  ghost predicate Sound(isIp: IpTest, m: Entries<string, Cert>) {
    forall i | 0 <= i < |m| :: exists h :: WildcardKey(isIp, h) == m[i].0 && m[i].1 == Mint(isIp, h)
  }

  lemma SoundKept(isIp: IpTest, m: Entries<string, Cert>, max: int, key: string, h: string)
    requires Sound(isIp, m) && WildcardKey(isIp, h) == key
    ensures Sound(isIp, MapDelete(m, key)) && Sound(isIp, Touched(m, key))
    ensures Sound(isIp, Stored(m, max, key, Mint(isIp, h)))
  {
    hide WildcardKey, Mint;
    match Find(m, key)
    case None =>
    case Some(i) =>
      var d := MapDelete(m, key);
      forall j | 0 <= j < |d|
        ensures d[j] in m
      {
        assert d[j] == m[if j < i then j else j + 1];
      }
      assert m[i] in m;
  }

  lemma {:induction false} RunIsSound(isIp: IpTest, max: int, hosts: seq<string>)
    ensures Sound(isIp, Run(max, RequestsFor(isIp, hosts)))
    decreases |hosts|
  {
    hide WildcardKey, Mint, Sound, MapGet, Touched, Stored;
    if hosts == [] {
      assert Sound(isIp, []) by { EmptySound(isIp); }
    } else {
      var n := |hosts| - 1;
      var rs := RequestsFor(isIp, hosts);
      assert rs[..n] == RequestsFor(isIp, hosts[..n]);
      RunIsSound(isIp, max, hosts[..n]);
      SoundKept(isIp, Run(max, rs[..n]), max, rs[n].key, hosts[n]);
    }
  }

  lemma EmptySound(isIp: IpTest)
    ensures Sound(isIp, [])
  {}

  /** What a request is answered with was minted for a host of the same key. */
  lemma AnswerMinted(isIp: IpTest, m: Entries<string, Cert>, host: string) returns (h: string)
    requires Sound(isIp, m)
    ensures WildcardKey(isIp, h) == WildcardKey(isIp, host) && Serve(m, RequestFor(isIp, host)) == Mint(isIp, h)
  {
    hide WildcardKey, Mint;
    var key := WildcardKey(isIp, host);
    if MapGet(m, key).Some? {
      var i := Find(m, key).value;
      h :| WildcardKey(isIp, h) == m[i].0 && m[i].1 == Mint(isIp, h);
    } else {
      h := host;
    }
  }

  /** The certificate handed out for a host after a run of requests for other hosts. */
  function Handed(isIp: IpTest, hosts: seq<string>, host: string): Cert {
    Serve(Run(CAPACITY, RequestsFor(isIp, hosts)), RequestFor(isIp, host))
  }

  /** Over all runs, through hits, misses and evictions, a host is handed a certificate that covers it,
      exactly when it is not one whose first label is empty. */
  lemma CacheIsSound(isIp: IpTest, host: string)
    requires IpSyntax(isIp)
    ensures (forall hosts :: Covers(isIp, Handed(isIp, hosts, host), host)) <==> !EmptyFirstLabel(isIp, host)
  {
    hide Covers, EmptyFirstLabel, Mint, WildcardKey, Serve, Run, IpSyntax;
    if EmptyFirstLabel(isIp, host) {
      var h := WrongHost(isIp, host);
      assert |h| == |host| + 1;
      FirstWins(isIp, h, host);
      SharedCertificate(isIp, h, host);
      assert !Covers(isIp, Handed(isIp, [h], host), host);
    } else {
      forall hosts
        ensures Covers(isIp, Handed(isIp, hosts, host), host)
      {
        RunIsSound(isIp, CAPACITY, hosts);
        var h := AnswerMinted(isIp, Run(CAPACITY, RequestsFor(isIp, hosts)), host);
        SharedCertificate(isIp, h, host);
      }
    }
  }

  /** A host with an empty first label has a neighbour with the same key. */
  lemma WrongHost(isIp: IpTest, host: string) returns (h: string)
    requires IpSyntax(isIp) && EmptyFirstLabel(isIp, host)
    ensures h == "z" + host && WildcardKey(isIp, h) == WildcardKey(isIp, host)
  {
    hide WildcardKey, Collapses, IndexOf, Split, Join;
    CollapsedKey(isIp, host);
    FirstDot(host);
    h := "z" + host;
    DotIndex(h);
    assert IndexOf(host, ".").value == 0;
    assert h[2..] == host[1..];
    assert AfterFirstDot(h) == AfterFirstDot(host);
    FirstDot(AfterFirstDot(h));
    assert Collapses(isIp, h) by { SplitParts(h); NamesCollapse(isIp, h); }
    CollapsedKey(isIp, h);
  }

  lemma NamesCollapse(isIp: IpTest, h: string)
    requires !isIp(h) && |Split(h, ".")| >= 3
    ensures Collapses(isIp, h)
  {}

  /** After one request, the key's certificate is the one minted then. */
  lemma FirstWins(isIp: IpTest, h: string, host: string)
    requires WildcardKey(isIp, h) == WildcardKey(isIp, host)
    ensures Handed(isIp, [h], host) == Mint(isIp, h)
  {
    hide WildcardKey, Mint;
    var rs := RequestsFor(isIp, [h]);
    assert rs == [RequestFor(isIp, h)] && rs[..0] == [];
    assert Run(CAPACITY, rs) == [(WildcardKey(isIp, h), Mint(isIp, h))];
  }

  class CertificateAuthority {
    const isIp: IpTest
    const contexts: LRU<string, Cert>
    const certPemCache: LRU<string, Cert>

    constructor (isIp: IpTest)
      ensures Valid() && this.isIp == isIp && fresh(contexts) && fresh(certPemCache)
      ensures contexts.entries == [] && certPemCache.entries == []
    {
      this.isIp := isIp;
      contexts := new LRU(CAPACITY);
      certPemCache := new LRU(CAPACITY);
    }

    ghost predicate Valid()
      reads this, contexts, certPemCache
    {
      contexts != certPemCache && contexts.Valid() && certPemCache.Valid() &&
      contexts.max == CAPACITY && certPemCache.max == CAPACITY
    }

    /** getSecureContext and getCredentialsFor do the same on the cache that each of them owns. */
    method Lookup(cache: LRU<string, Cert>, servername: string) returns (c: Cert)
      requires cache.Valid()
      modifies cache
      ensures cache.Valid()
      ensures c == Serve(old(cache.entries), RequestFor(isIp, servername))
      ensures cache.entries == After(old(cache.entries), cache.max, RequestFor(isIp, servername))
    {
      hide WildcardKey, Sans, MapGet, Touched, Stored, Keys, Distinct;
      var key := WildcardKey(isIp, servername);
      var hit := cache.Get(key);
      if hit.Some? {
        return hit.value;
      }
      c := MintLeaf(isIp, servername, key);
      MissKeeps(old(cache.entries), key);
      cache.Set(key, c);
    }

    method GetSecureContext(servername: string) returns (c: Cert)
      requires Valid()
      modifies contexts
      ensures Valid() && c == Serve(old(contexts.entries), RequestFor(isIp, servername))
      ensures contexts.entries == After(old(contexts.entries), CAPACITY, RequestFor(isIp, servername))
    {
      c := Lookup(contexts, servername);
    }

    method GetCredentialsFor(servername: string) returns (c: Cert)
      requires Valid()
      modifies certPemCache
      ensures Valid() && c == Serve(old(certPemCache.entries), RequestFor(isIp, servername))
      ensures certPemCache.entries == After(old(certPemCache.entries), CAPACITY, RequestFor(isIp, servername))
    {
      c := Lookup(certPemCache, servername);
    }
  }

  lemma MissKeeps(m: Entries<string, Cert>, key: string)
    requires MapGet(m, key).None?
    ensures Touched(m, key) == m
  {}

  // ---- interleaved runs: cnproxy-core/src/cert.rs ----

  /** A call of cert_for_host, by where it is: before the first lock, between the locks without and with
      a certificate, and finished. */
  datatype Call =
    | Waiting(host: string)
    | Missed(host: string)
    | Holding(host: string, cert: Cert)
    | Returned(host: string, cert: Cert)
    | Failed(host: string)

  /** The shared cache and any number of calls at once. */
  datatype System = System(cache: Entries<string, Cert>, calls: seq<Call>)

  ghost predicate Initial(s: System) {
    s.cache == [] && forall i | 0 <= i < |s.calls| :: s.calls[i].Waiting?
  }

  /** One locked section, or the minting between them, of one call. A name that is no IA5 string makes
      minting fail. */
  ghost predicate Moves(isIp: IpTest, ia5: string -> bool, s: System, t: System, i: nat) {
    i < |s.calls| && |t.calls| == |s.calls| && t.calls == s.calls[i := t.calls[i]] &&
    var key := WildcardKey(isIp, s.calls[i].host);
    match s.calls[i]
    case Waiting(host) =>
      (match MapGet(s.cache, key)
       case Some(c) => t.cache == Touched(s.cache, key) && t.calls[i] == Returned(host, c)
       case None => t.cache == s.cache && t.calls[i] == Missed(host))
    case Missed(host) =>
      t.cache == s.cache &&
      t.calls[i] == if isIp(host) || (ia5(key) && ia5(host)) then Holding(host, Mint(isIp, host)) else Failed(host)
    case Holding(host, c) => t.cache == Stored(s.cache, CAPACITY, key, c) && t.calls[i] == Returned(host, c)
    case Returned(_, _) => false
    case Failed(_) => false
  }

  ghost predicate SomeMove(isIp: IpTest, ia5: string -> bool, s: System, t: System) {
    exists i :: Moves(isIp, ia5, s, t, i)
  }

  ghost predicate Execution(isIp: IpTest, ia5: string -> bool, run: seq<System>) {
    run != [] && Initial(run[0]) &&
    forall k | 0 <= k < |run| - 1 :: SomeMove(isIp, ia5, run[k], run[k + 1])
  }

  ghost predicate MintedForKey(isIp: IpTest, c: Cert, key: string) {
    exists h :: WildcardKey(isIp, h) == key && c == Mint(isIp, h)
  }

  /** What every reachable state satisfies: cached certificates and certificates in hand or returned were
      minted for some host of the right key. */
  ghost predicate Invariant(isIp: IpTest, s: System) {
    Sound(isIp, s.cache) &&
    forall i | 0 <= i < |s.calls| ::
      (s.calls[i].Holding? ==> s.calls[i].cert == Mint(isIp, s.calls[i].host)) &&
      (s.calls[i].Returned? ==> MintedForKey(isIp, s.calls[i].cert, WildcardKey(isIp, s.calls[i].host)))
  }

  lemma MovePreserves(isIp: IpTest, ia5: string -> bool, s: System, t: System, i: nat)
    requires Invariant(isIp, s) && Moves(isIp, ia5, s, t, i)
    ensures Invariant(isIp, t)
  {
    hide WildcardKey, Mint, Sound, MapDelete, Touched, Stored;
    var host := s.calls[i].host;
    var key := WildcardKey(isIp, host);
    SoundKept(isIp, s.cache, CAPACITY, key, host);
    if s.calls[i].Waiting? && MapGet(s.cache, key).Some? {
      var h := AnswerMinted(isIp, s.cache, host);
      assert MintedForKey(isIp, t.calls[i].cert, key);
    }
    if s.calls[i].Holding? {
      assert MintedForKey(isIp, t.calls[i].cert, key);
    }
    forall j | 0 <= j < |t.calls| && j != i
      ensures t.calls[j] == s.calls[j]
    {}
  }

  lemma {:induction false} ExecutionKeeps(isIp: IpTest, ia5: string -> bool, run: seq<System>, k: nat)
    requires Execution(isIp, ia5, run) && k < |run|
    ensures Invariant(isIp, run[k])
    decreases k
  {
    hide Moves, Sound, Mint, WildcardKey;
    if k == 0 {
      EmptySound(isIp);
    } else {
      ExecutionKeeps(isIp, ia5, run, k - 1);
      assert SomeMove(isIp, ia5, run[k - 1], run[k - 1 + 1]);
      var i :| Moves(isIp, ia5, run[k - 1], run[k], i);
      MovePreserves(isIp, ia5, run[k - 1], run[k], i);
    }
  }

  /** In every interleaving of any number of calls, a call that returns hands its host a certificate that
      covers it, unless the host's first label is empty. */
  lemma InterleavingsAreSound(isIp: IpTest, ia5: string -> bool, run: seq<System>, k: nat, i: nat)
    requires IpSyntax(isIp) && Execution(isIp, ia5, run) && k < |run|
    requires i < |run[k].calls| && run[k].calls[i].Returned?
    requires !EmptyFirstLabel(isIp, run[k].calls[i].host)
    ensures Covers(isIp, run[k].calls[i].cert, run[k].calls[i].host)
  {
    hide Execution, Covers, EmptyFirstLabel, Sound, Mint, WildcardKey, IpSyntax;
    ExecutionKeeps(isIp, ia5, run, k);
    var host, c := run[k].calls[i].host, run[k].calls[i].cert;
    var h :| WildcardKey(isIp, h) == WildcardKey(isIp, host) && c == Mint(isIp, h);
    SharedCertificate(isIp, h, host);
  }

  /** Two calls one after the other: the second is answered with what the first put in the cache. */
  function Scenario(isIp: IpTest, h: string, host: string): seq<System> {
    var c := Mint(isIp, h);
    var cache := [(WildcardKey(isIp, h), c)];
    [System([], [Waiting(h), Waiting(host)]), System([], [Missed(h), Waiting(host)]),
     System([], [Holding(h, c), Waiting(host)]), System(cache, [Returned(h, c), Waiting(host)]),
     System(cache, [Returned(h, c), Returned(host, c)])]
  }

  lemma ScenarioRuns(isIp: IpTest, ia5: string -> bool, h: string, host: string)
    requires WildcardKey(isIp, h) == WildcardKey(isIp, host) && ia5(h) && ia5(WildcardKey(isIp, h))
    ensures Execution(isIp, ia5, Scenario(isIp, h, host))
  {
    hide WildcardKey, Mint;
    var run := Scenario(isIp, h, host);
    var key, c := WildcardKey(isIp, h), Mint(isIp, h);
    var none: Entries<string, Cert> := [];
    assert MapGet(none, key) == None && Stored(none, CAPACITY, key, c) == [(key, c)];
    assert MapGet([(key, c)], key) == Some(c);
    assert Touched([(key, c)], key) == [(key, c)];
    assert Moves(isIp, ia5, run[0], run[1], 0);
    assert Moves(isIp, ia5, run[1], run[2], 0);
    assert Moves(isIp, ia5, run[2], run[3], 0);
    assert Moves(isIp, ia5, run[3], run[4], 1);
  }

  /** A host is handed a covering certificate in every interleaving exactly when its first label is not
      empty. */
  lemma InterleavingsAreSoundIff(isIp: IpTest, ia5: string -> bool, host: string)
    requires IpSyntax(isIp) && ia5("z" + host) && ia5(WildcardKey(isIp, host))
    ensures (forall run: seq<System>, k: nat, i: nat |
               Execution(isIp, ia5, run) && k < |run| && i < |run[k].calls| && run[k].calls[i].Returned? &&
               run[k].calls[i].host == host :: Covers(isIp, run[k].calls[i].cert, host))
            <==> !EmptyFirstLabel(isIp, host)
  {
    hide Execution, Covers, EmptyFirstLabel, Mint, WildcardKey, IpSyntax;
    if EmptyFirstLabel(isIp, host) {
      var h := WrongHost(isIp, host);
      assert |h| == |host| + 1;
      ScenarioRuns(isIp, ia5, h, host);
      SharedCertificate(isIp, h, host);
      var run := Scenario(isIp, h, host);
      assert run[4].calls[1] == Returned(host, Mint(isIp, h));
    } else {
      forall run: seq<System>, k: nat, i: nat |
        Execution(isIp, ia5, run) && k < |run| && i < |run[k].calls| && run[k].calls[i].Returned? &&
        run[k].calls[i].host == host
        ensures Covers(isIp, run[k].calls[i].cert, host)
      {
        InterleavingsAreSound(isIp, ia5, run, k, i);
      }
    }
  }
}
