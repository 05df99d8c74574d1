/**
 Which model a request names. REST requests name it in the URL, gRPC requests in
 the model spec; both become a name and a version string, from which the ring key
 and the cache identifier are made.
 */
module RequestIdentity {
  import Int64
  import opened Decimal
  import opened Models
  import opened Wrappers

  const MODELS := "/v1/models/"
  const VERSIONS := "/versions/"

  function Lower(c: char): char {
    if 'A' <= c <= 'Z' then c + 32 as char else c
  }

  /** A letter in lower case stands for itself and its capital, any other character for itself alone. */
  lemma LowerExactly(c: char, w: char)
    requires !('A' <= w <= 'Z')
    ensures Lower(c) == w <==> c == w || ('a' <= w <= 'z' && c as int == w as int - 32)
  {
  }

  /** `s` spells `word`, which is in lower case, in any case. */
  predicate Folds(s: string, word: string) {
    |s| == |word| && forall i :: 0 <= i < |s| ==> Lower(s[i]) == word[i]
  }

  predicate HasPrefix(s: string, word: string) {
    |s| >= |word| && Folds(s[..|word|], word)
  }

  /** The length of the longest prefix of `s` without a slash. */
  function NameLength(s: string): (n: nat)
    ensures n <= |s| && '/' !in s[..n] && (n < |s| ==> s[n] == '/')
  {
    if s == [] || s[0] == '/' then 0
    else
      var n := NameLength(s[1..]);
      assert s[..n + 1] == [s[0]] + s[1..][..n];
      n + 1
  }

  /** The length of the longest prefix of `s` of digits. */
  function DigitsLength(s: string): (n: nat)
    ensures n <= |s| && AllDigits(s[..n]) && (n < |s| ==> !IsDigit(s[n]))
  {
    if s == [] || !IsDigit(s[0]) then 0
    else
      var n := DigitsLength(s[1..]);
      assert s[..n + 1] == [s[0]] + s[1..][..n];
      n + 1
  }

  datatype Match = NoMatch | Match(name: string, version: string)

  /**
   The leftmost match of the URL pattern, from the start of the URL. The name runs
   up to the next slash; the version group matches or is left empty, and whatever
   follows is ignored.
   */
  function MatchURL(url: string): Match {
    if !HasPrefix(url, MODELS) then NoMatch
    else
      var rest := url[|MODELS|..];
      var n := NameLength(rest);
      if n == 0 then NoMatch else Match(rest[..n], VersionGroup(rest[n..]))
  }

  /** The version group of the pattern, which may match nothing. */
  function VersionGroup(s: string): string {
    if HasPrefix(s, VERSIONS) then
      var digits := s[|VERSIONS|..];
      digits[..DigitsLength(digits)]
    else ""
  }

  datatype Served = NotFound | BadRequest | Forward(name: string, version: string)

  /** The REST handler: without a version the request is refused. */
  function ServeRest(url: string): Served {
    match MatchURL(url)
    case NoMatch => NotFound
    case Match(name, version) => if version == "" then BadRequest else Forward(name, version)
  }

  /** The gRPC handler passes on the spec's name and prints its version. */
  function ServeGrpc(name: string, version: int): Served {
    Forward(name, FormatInt(version))
  }

  /** What the cache makes of the two strings. */
  function Identifier(name: string, version: string): Option<ModelIdentifier> {
    match ParseInt(version)
    case Parsed(v) => Some(ModelIdentifier(name, v))
    case _ => None
  }

  /** What the ring makes of them. */
  function RingKey(name: string, version: string): string {
    name + "##" + version
  }

  lemma Cut(a: string, b: string)
    ensures (a + b)[..|a|] == a && (a + b)[|a|..] == b
  {
  }

  lemma {:induction false} NameLengthOf(name: string, rest: string)
    requires '/' !in name && (rest != [] ==> rest[0] == '/')
    ensures NameLength(name + rest) == |name|
  {
    if name == [] {
      assert name + rest == rest;
    } else {
      assert (name + rest)[1..] == name[1..] + rest;
      NameLengthOf(name[1..], rest);
    }
  }

  lemma {:induction false} DigitsLengthOf(digits: string, rest: string)
    requires AllDigits(digits) && (rest != [] ==> !IsDigit(rest[0]))
    ensures DigitsLength(digits + rest) == |digits|
  {
    if digits == [] {
      assert digits + rest == rest;
    } else {
      assert (digits + rest)[1..] == digits[1..] + rest;
      assert digits[0] in digits && forall c :: c in digits[1..] ==> c in digits;
      DigitsLengthOf(digits[1..], rest);
    }
  }

  /** The part of a URL after the name: it names a version, and anything may follow. */
  ghost predicate NamesVersion(s: string, mid: string, version: string, tail: string) {
    && s == mid + (version + tail)
    && Folds(mid, VERSIONS)
    && version != [] && AllDigits(version)
    && (tail != [] ==> !IsDigit(tail[0]))
  }

  /** The version group matches all of the digits, and it matches only where the version is named. */
  lemma VersionGroupExact(s: string)
    ensures forall mid, version, tail :: NamesVersion(s, mid, version, tail) ==> VersionGroup(s) == version
    ensures VersionGroup(s) != "" ==> exists mid, tail :: NamesVersion(s, mid, VersionGroup(s), tail)
  {
    forall mid, version, tail | NamesVersion(s, mid, version, tail)
      ensures VersionGroup(s) == version
    {
      Cut(mid, version + tail);
      DigitsLengthOf(version, tail);
      Cut(version, tail);
    }
    if VersionGroup(s) != "" {
      var mid, digits := s[..|VERSIONS|], s[|VERSIONS|..];
      var d := DigitsLength(digits);
      assert digits == digits[..d] + digits[d..];
      assert NamesVersion(s, mid, digits[..d], digits[d..]);
    }
  }

  /** The shape of URL that names a model and a version. */
  ghost predicate NamesModel(url: string, name: string, version: string) {
    exists pre, mid, tail :: Shape(url, pre, name, mid, version, tail)
  }

  ghost predicate Shape(url: string, pre: string, name: string, mid: string, version: string, tail: string) {
    && url == pre + (name + (mid + (version + tail)))
    && Folds(pre, MODELS)
    && name != [] && '/' !in name
    && NamesVersion(mid + (version + tail), mid, version, tail)
  }

  /** Exactly the URLs of that shape are forwarded, each with the name and version it shows. */
  lemma ForwardedExactly(url: string, name: string, version: string)
    ensures ServeRest(url) == Forward(name, version) <==> NamesModel(url, name, version)
  {
    if NamesModel(url, name, version) {
      var pre, mid, tail :| Shape(url, pre, name, mid, version, tail);
      var s := mid + (version + tail);
      Cut(pre, name + s);
      NameLengthOf(name, s);
      Cut(name, s);
      VersionGroupExact(s);
    }
    if ServeRest(url) == Forward(name, version) {
      var rest := url[|MODELS|..];
      var s := rest[NameLength(rest)..];
      VersionGroupExact(s);
      var mid, tail :| NamesVersion(s, mid, version, tail);
      assert url == url[..|MODELS|] + rest && rest == name + s;
      assert Shape(url, url[..|MODELS|], name, mid, version, tail);
    }
  }

  /** The URL names a model, and `rest` is what follows the name. */
  ghost predicate NamesOnly(url: string, pre: string, name: string, rest: string) {
    && url == pre + (name + rest)
    && Folds(pre, MODELS)
    && name != [] && '/' !in name
    && (rest != [] ==> rest[0] == '/')
  }

  ghost predicate VersionNamed(s: string) {
    exists mid, version, tail :: NamesVersion(s, mid, version, tail)
  }

  /** The match, from the way in which a URL names a model. */
  lemma MatchOf(url: string, pre: string, name: string, rest: string)
    requires NamesOnly(url, pre, name, rest)
    ensures MatchURL(url) == Match(name, VersionGroup(rest))
  {
    Cut(pre, name + rest);
    NameLengthOf(name, rest);
    Cut(name, rest);
  }

  lemma MatchNames(url: string) returns (pre: string, name: string, rest: string)
    requires MatchURL(url).Match?
    ensures NamesOnly(url, pre, name, rest)
  {
    var after := url[|MODELS|..];
    var n := NameLength(after);
    pre, name, rest := url[..|MODELS|], after[..n], after[n..];
    assert url == pre + after && after == name + rest;
  }

  /** A URL is not found exactly when it names no model. */
  lemma NotFoundExactly(url: string)
    ensures ServeRest(url) == NotFound <==> !exists pre, name, rest :: NamesOnly(url, pre, name, rest)
  {
    if pre, name, rest :| NamesOnly(url, pre, name, rest) {
      MatchOf(url, pre, name, rest);
    }
    if MatchURL(url).Match? {
      var pre, name, rest := MatchNames(url);
    }
  }

  /** It is a bad request exactly when it names a model and, after it, no version. */
  lemma BadRequestExactly(url: string)
    ensures ServeRest(url) == BadRequest <==>
      exists pre, name, rest :: NamesOnly(url, pre, name, rest) && !VersionNamed(rest)
  {
    if pre, name, rest :| NamesOnly(url, pre, name, rest) && !VersionNamed(rest) {
      MatchOf(url, pre, name, rest);
      VersionGroupExact(rest);
    }
    if ServeRest(url) == BadRequest {
      var pre, name, rest := MatchNames(url);
      MatchOf(url, pre, name, rest);
      VersionGroupExact(rest);
    }
  }

  /** What a forwarded request becomes in the cache: its digits' value, unless that is too large. */
  lemma RestIdentifier(url: string)
    requires ServeRest(url).Forward?
    ensures var Forward(name, version) := ServeRest(url);
      && AllDigits(version)
      && Identifier(name, version) ==
         if DigitsValue(version) <= Int64.MAX then Some(ModelIdentifier(name, DigitsValue(version))) else None
  {
    var Forward(name, version) := ServeRest(url);
    ForwardedExactly(url, name, version);
    var pre, mid, tail :| Shape(url, pre, name, mid, version, tail);
    assert Numeral(version, "", version);
    ParseNumeral(version, "", version);
  }

  /** No identifier is made of a version that is no numeral, or out of range. */
  lemma IdentifierExactly(name: string, version: string, id: ModelIdentifier)
    ensures Identifier(name, version) == Some(id) <==>
      id.modelName == name && exists sign, digits ::
        Numeral(version, sign, digits) && NumeralValue(sign, digits) == id.version && Int64.InRange(id.version)
  {
    ParseRefuses(version);
    forall sign, digits | Numeral(version, sign, digits)
      ensures var v := NumeralValue(sign, digits); Int64.InRange(v) <==> ParseInt(version) == Parsed(v)
      ensures ParseInt(version).Parsed? ==> ParseInt(version).value == NumeralValue(sign, digits)
    {
      ParseNumeral(version, sign, digits);
    }
  }

  /** The fixed parts may be written in capitals, and what follows the version does not matter. */
  lemma AnyCaseForwarded(pre: string, name: string, mid: string, version: string, tail: string)
    requires pre in {"/v1/models/", "/V1/MODELS/", "/v1/Models/"} && mid in {"/versions/", "/VERSIONS/", "/Versions/"}
    requires name != [] && '/' !in name && version != [] && AllDigits(version)
    requires tail != [] ==> !IsDigit(tail[0])
    ensures ServeRest(pre + (name + (mid + (version + tail)))) == Forward(name, version)
  {
    var url := pre + (name + (mid + (version + tail)));
    assert Shape(url, pre, name, mid, version, tail);
    ForwardedExactly(url, name, version);
  }

  /** A URL without a version is a bad request; one of another API version, or without a name, is not found. */
  lemma Refused(name: string, rest: string)
    requires name != [] && '/' !in name
    ensures ServeRest("/v1/models/" + name) == BadRequest
    ensures ServeRest("/v2/models/" + rest) == ServeRest("/v1/models//" + rest) == NotFound
  {
    assert NamesOnly("/v1/models/" + name, "/v1/models/", name, "") by {
      assert name + "" == name;
    }
    BadRequestExactly("/v1/models/" + name);
    assert ("/v2/models/" + rest)[2] == '2' && MODELS[2] == '1';
    assert ("/v1/models//" + rest)[|MODELS|..] == "/" + rest;
  }

  /**
   A REST URL that spells out a name and a version is forwarded as the gRPC request
   for the same two exactly when the version is not negative and the name is not
   empty and without a slash; either way the strings of a gRPC request identify the
   name and version it was made from.
   */
  lemma SameIdentity(name: string, v: int, tail: string)
    requires Int64.InRange(v)
    requires tail != [] ==> !IsDigit(tail[0])
    ensures ServeRest(MODELS + name + VERSIONS + FormatInt(v) + tail) == ServeGrpc(name, v)
       <==> 0 <= v && name != [] && '/' !in name
    ensures var Forward(name', version) := ServeGrpc(name, v);
      Identifier(name', version) == Some(ModelIdentifier(name, v))
  {
    FormatThenParse(v);
    if 0 <= v && name != [] && '/' !in name {
      SpelledOut(name, FormatInt(v), tail);
    } else {
      assert v < 0 ==> '-' in FormatInt(v);
      ForwardedExactly(MODELS + name + VERSIONS + FormatInt(v) + tail, name, FormatInt(v));
    }
  }

  lemma SpelledOut(name: string, version: string, tail: string)
    requires name != [] && '/' !in name && version != [] && AllDigits(version)
    requires tail != [] ==> !IsDigit(tail[0])
    ensures ServeRest(MODELS + name + VERSIONS + version + tail) == Forward(name, version)
  {
    var url := MODELS + name + VERSIONS + version + tail;
    assert url == MODELS + (name + (VERSIONS + (version + tail)));
    assert Shape(url, MODELS, name, VERSIONS, version, tail);
    ForwardedExactly(url, name, version);
  }

  /** A ring key is the name, two hash signs and the version. */
  lemma RingKeyLayout(name: string, version: string)
    ensures var key, n := RingKey(name, version), |name|;
      |key| == n + 2 + |version| && key[..n] == name && key[n] == key[n + 1] == '#' && key[n + 2..] == version
  {
  }

  /** Ring keys tell all requests apart. */
  lemma RingKeyInjective(name: string, version: string, name': string, version': string)
    requires '#' !in version && '#' !in version'
    requires RingKey(name, version) == RingKey(name', version')
    ensures name == name' && version == version'
  {
    assert RingKey(name, version) == (name + ['#']) + ['#'] + version;
    assert RingKey(name', version') == (name' + ['#']) + ['#'] + version';
    LastSeparator(name + ['#'], version, name' + ['#'], version', '#');
    assert (name + ['#'])[..|name|] == name && (name' + ['#'])[..|name'|] == name';
  }

  /**
   A REST request reaches the same ring key as the gRPC request for the same cache
   identifier exactly when its version has no redundant leading zero.
   */
  lemma SameRingKey(url: string)
    requires ServeRest(url).Forward?
    requires Identifier(ServeRest(url).name, ServeRest(url).version).Some?
    ensures var Forward(name, version) := ServeRest(url);
      var id := Identifier(name, version).value;
      && 0 <= id.version
      && (RingKey(name, version) == RingKey(id.modelName, FormatInt(id.version)) <==> Canonical(version))
  {
    var Forward(name, version) := ServeRest(url);
    ForwardedExactly(url, name, version);
    var pre, mid, tail :| Shape(url, pre, name, mid, version, tail);
    assert version[0] in version;
    ParseThenFormat(version);
    NoSeparators(DigitsValue(version));
    if RingKey(name, version) == RingKey(name, FormatInt(DigitsValue(version))) {
      assert '#' !in version;
      RingKeyInjective(name, version, name, FormatInt(DigitsValue(version)));
    }
  }
}
