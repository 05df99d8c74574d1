/** How a node travels as text: through etcd, and as a member of the hash ring. */
module NodeCodec {
  import Int64
  import opened Decimal
  import opened Wrappers

  datatype ServingService = ServingService(host: string, grpcPort: int, restPort: int)

  ghost predicate ValidPorts(s: ServingService) {
    Int64.InRange(s.grpcPort) && Int64.InRange(s.restPort)
  }

  /** The printed form; `updateTTL` writes the same form to etcd. */
  function ToString(s: ServingService): string {
    s.host + ":" + FormatInt(s.restPort) + ":" + FormatInt(s.grpcPort)
  }

  /** `strings.Split` at a one-character separator. */
  function Split(s: string, sep: char): (parts: seq<string>)
    ensures parts != []
  {
    if s == [] then [[]]
    else
      var rest := Split(s[1..], sep);
      if s[0] == sep then [[]] + rest else [[s[0]] + rest[0]] + rest[1..]
  }

  lemma {:induction false} SplitHead(a: string, rest: string, sep: char)
    requires sep !in a
    ensures Split(a + [sep] + rest, sep) == [a] + Split(rest, sep)
  {
    if a == [] {
      assert ([] + [sep] + rest)[1..] == rest;
    } else {
      assert (a + [sep] + rest)[1..] == a[1..] + [sep] + rest;
      SplitHead(a[1..], rest, sep);
      assert (a + [sep] + rest)[0] == a[0] && [a[0]] + a[1..] == a;
      assert ([a[1..]] + Split(rest, sep))[1..] == Split(rest, sep);
    }
  }

  lemma {:induction false} SplitPlain(a: string, sep: char)
    requires sep !in a
    ensures Split(a, sep) == [a]
  {
    if a != [] {
      SplitPlain(a[1..], sep);
      assert a[0] in a && [a[0]] + a[1..] == a;
    }
  }

  lemma {:induction false} SplitParts(s: string, sep: char)
    ensures sep !in Split(s, sep)[0]
  {
    if s != [] {
      SplitParts(s[1..], sep);
    }
  }

  /** Indexing past the parts panics; a port that is no number is an error. */
  datatype Parse = Panic | BadPort | Service(service: ServingService)

  /** `serviceFromString`, in the order in which it touches the parts. */
  function FromString(text: string): (r: Parse)
    ensures r.Service? <==>
      |Split(text, ':')| > 2 && ParseInt(Split(text, ':')[1]).Parsed? && ParseInt(Split(text, ':')[2]).Parsed?
    ensures r.Panic? <==>
      |Split(text, ':')| == 1 || (|Split(text, ':')| == 2 && ParseInt(Split(text, ':')[1]).Parsed?)
    ensures r.Service? ==>
      && r.service.host == Split(text, ':')[0]
      && ParseInt(Split(text, ':')[1]) == Parsed(r.service.restPort)
      && ParseInt(Split(text, ':')[2]) == Parsed(r.service.grpcPort)
  {
    var parts := Split(text, ':');
    if |parts| < 2 then Panic
    else
      var rest := ParseInt(parts[1]);
      if !rest.Parsed? then BadPort
      else if |parts| < 3 then Panic
      else
        var grpc := ParseInt(parts[2]);
        if !grpc.Parsed? then BadPort
        else Service(ServingService(parts[0], grpc.value, rest.value))
  }

  /** The watcher's own decoding of an etcd value: a bad port is logged and used all the same. */
  function DecodeMember(text: string): (r: Option<ServingService>)
    ensures r.Some? <==> |Split(text, ':')| > 2
    ensures r.Some? ==>
      && r.value.host == Split(text, ':')[0]
      && r.value.restPort == AtoiValue(ParseInt(Split(text, ':')[1]))
      && r.value.grpcPort == AtoiValue(ParseInt(Split(text, ':')[2]))
  {
    var parts := Split(text, ':');
    if |parts| < 3 then None
    else Some(ServingService(parts[0], AtoiValue(ParseInt(parts[2])), AtoiValue(ParseInt(parts[1]))))
  }

  /**
   The two decoders agree on what the first of them reads. The second one also reads a
   bad port: it takes what `Atoi` returns with the error, and 0 for what is no numeral.
   */
  lemma DecodersAgree(text: string)
    ensures FromString(text).Service? ==> DecodeMember(text) == Some(FromString(text).service)
    ensures FromString(text).Panic? ==> DecodeMember(text) == None
    ensures DecodeMember(text) == None ==> FromString(text).Panic? || FromString(text).BadPort?
    ensures DecodeMember(text).Some? && ParseInt(Split(text, ':')[1]) == SyntaxError ==>
      DecodeMember(text).value.restPort == 0
    ensures DecodeMember(text).Some? && ParseInt(Split(text, ':')[2]) == SyntaxError ==>
      DecodeMember(text).value.grpcPort == 0
  {
  }

  lemma PartsOfPrinted(s: ServingService)
    requires ':' !in s.host
    ensures Split(ToString(s), ':') == [s.host, FormatInt(s.restPort), FormatInt(s.grpcPort)]
  {
    var rest, grpc := FormatInt(s.restPort), FormatInt(s.grpcPort);
    NoSeparators(s.restPort);
    NoSeparators(s.grpcPort);
    assert ToString(s) == s.host + [':'] + (rest + [':'] + grpc);
    SplitHead(s.host, rest + [':'] + grpc, ':');
    SplitHead(rest, grpc, ':');
    SplitPlain(grpc, ':');
  }

  /**
   Both decoders give a printed node back exactly when its host has no colon: an
   IPv6 host does not survive either of them.
   */
  lemma RoundTrip(s: ServingService)
    requires ValidPorts(s)
    ensures FromString(ToString(s)) == Service(s) <==> ':' !in s.host
    ensures DecodeMember(ToString(s)) == Some(s) <==> ':' !in s.host
  {
    SplitParts(ToString(s), ':');
    if ':' !in s.host {
      PartsOfPrinted(s);
      FormatThenParse(s.restPort);
      FormatThenParse(s.grpcPort);
    }
  }

  /** Different nodes never print the same, whatever their hosts. */
  lemma PrintedDistinct(s: ServingService, t: ServingService)
    requires ValidPorts(s) && ValidPorts(t)
    requires ToString(s) == ToString(t)
    ensures s == t
  {
    NoSeparators(s.restPort);
    NoSeparators(s.grpcPort);
    NoSeparators(t.restPort);
    NoSeparators(t.grpcPort);
    var a, b := s.host + [':'] + FormatInt(s.restPort), t.host + [':'] + FormatInt(t.restPort);
    assert ToString(s) == a + [':'] + FormatInt(s.grpcPort) && ToString(t) == b + [':'] + FormatInt(t.grpcPort);
    LastSeparator(a, FormatInt(s.grpcPort), b, FormatInt(t.grpcPort), ':');
    LastSeparator(s.host, FormatInt(s.restPort), t.host, FormatInt(t.restPort), ':');
    FormatThenParse(s.restPort);
    FormatThenParse(t.restPort);
    FormatThenParse(s.grpcPort);
    FormatThenParse(t.grpcPort);
  }

  /** A registered node reaches the hash ring as the very text that was registered. */
  lemma RegisteredTextReachesRing(s: ServingService)
    requires ValidPorts(s) && ':' !in s.host
    ensures DecodeMember(ToString(s)).Some?
    ensures ToString(DecodeMember(ToString(s)).value) == ToString(s)
  {
    RoundTrip(s);
  }
}
