/** The Basic credentials header (src/authentication.cpp) and what the server makes of it
    (src/server.cpp:165-181). */
module Authentications {
  import opened Common
  import opened Base64

  datatype Result<+T> = Success(value: T) | Failure(message: string)

  /** An anonymous object has an empty user name and password. */
  datatype Authentication = Anonymous | Basic(username: seq<byte>, password: seq<byte>)

  const SPACE: byte := 32
  const COLON: byte := 58
  /** "Basic" */
  const BASIC: seq<byte> := [66, 97, 115, 105, 99]

  predicate IsSpace(c: byte) { c == SPACE || 9 <= c <= 13 }

  predicate IsColon(c: byte) { c == COLON }

  /** How many leading characters are delimiters (`want`) or are not (`!want`). */
  function Span(s: seq<byte>, p: byte -> bool, want: bool): (n: nat)
    ensures n <= |s| && (forall i :: 0 <= i < n ==> p(s[i]) == want) && (n < |s| ==> p(s[n]) != want)
  {
    if s == [] || p(s[0]) != want then 0 else 1 + Span(s[1..], p, want)
  }

  /** boost::split with token_compress_on: a run of delimiters separates two tokens, either of which
      can be empty at the ends. */
  function Split(s: seq<byte>, p: byte -> bool): (tokens: seq<seq<byte>>)
    ensures tokens != []
    ensures forall i :: 0 <= i < |tokens| ==> forall j :: 0 <= j < |tokens[i]| ==> !p(tokens[i][j])
    decreases |s|
  {
    var n := Span(s, p, false);
    if n == |s| then [s] else [s[..n]] + Split(s[n..][Span(s[n..], p, true)..], p)
  }

  function FromHeader(header: seq<byte>): Result<Authentication> {
    var headerParts := Split(header, IsSpace);
    if |headerParts| >= 2 then
      var value := Decoded(headerParts[1]);
      if headerParts[0] == BASIC then
        var authParts := Split(value, IsColon);
        if |authParts| < 2 then Failure("Invalid basic authorization header")
        else Success(Basic(authParts[0], authParts[1]))
      else Failure("Invalid authorization header")
    else Failure("Invalid authorization header")
  }

  function Joined(u: seq<byte>, p: seq<byte>): seq<byte> { u + [COLON] + p }

  function EncodedHeader(a: Authentication): seq<byte> {
    match a
    case Anonymous => []
    case Basic(u, p) => BASIC + [SPACE] + Encoded(Joined(u, p))
  }

  ghost predicate Free(s: seq<byte>, p: byte -> bool) {
    forall i :: 0 <= i < |s| ==> !p(s[i])
  }

  lemma SplitFree(s: seq<byte>, p: byte -> bool)
    requires Free(s, p)
    ensures Split(s, p) == [s]
  {
  }

  lemma {:induction false} SpanPrefix(a: seq<byte>, b: seq<byte>, p: byte -> bool, want: bool)
    requires (forall i :: 0 <= i < |a| ==> p(a[i]) == want) && (b != [] ==> p(b[0]) != want)
    ensures Span(a + b, p, want) == |a|
  {
    if a == [] {
      assert a + b == b;
    } else {
      assert (a + b)[1..] == a[1..] + b;
      SpanPrefix(a[1..], b, p, want);
    }
  }

  /** The first token ends at the first delimiter. */
  lemma SplitFirst(a: seq<byte>, d: byte, b: seq<byte>, p: byte -> bool)
    requires Free(a, p) && p(d)
    ensures Split(a + [d] + b, p) == [a] + Split(b[Span(b, p, true)..], p)
  {
    var s := a + ([d] + b);
    assert s == a + [d] + b;
    SpanPrefix(a, [d] + b, p, false);
    assert s[..|a|] == a && s[|a|..] == [d] + b;
    assert ([d] + b)[1..] == b;
    assert Span([d] + b, p, true) == 1 + Span(b, p, true);
    assert s[|a|..][Span(s[|a|..], p, true)..] == b[Span(b, p, true)..];
  }

  lemma EncodedHasNoSpace(x: seq<byte>)
    ensures Free(Encoded(x), IsSpace) && (x != [] ==> Encoded(x) != [])
  {
    OutputAlphabet(x);
    SextetCount(x);
  }

  lemma SplitHeader(token: seq<byte>)
    requires Free(token, IsSpace)
    ensures Split(BASIC + [SPACE] + token, IsSpace) == [BASIC, token]
  {
    assert Span(token, IsSpace, true) == 0 && token[0..] == token;
    SplitFirst(BASIC, SPACE, token, IsSpace);
    SplitFree(token, IsSpace);
  }

  /** The server's parser always gets back what getEncodedHeader has encoded. */
  lemma HeaderCarriesJoined(u: seq<byte>, p: seq<byte>)
    ensures Split(EncodedHeader(Basic(u, p)), IsSpace) == [BASIC, Encoded(Joined(u, p))]
    ensures Decoded(Encoded(Joined(u, p))) == Joined(u, p)
  {
    var x := Joined(u, p);
    var e := Encoded(x);
    EncodedHasNoSpace(x);
    SplitHeader(e);
    RoundTrip(x, 0);
    assert e + Padding(0) == e;
  }

  /** The split at the first colon when the user name has none. */
  lemma SplitJoined(u: seq<byte>, p: seq<byte>)
    requires Free(u, IsColon)
    ensures var parts := Split(Joined(u, p), IsColon);
            |parts| >= 2 && parts[0] == u && (parts[1] == p <==> Free(p, IsColon))
  {
    SplitFirst(u, COLON, p, IsColon);
    var rest := p[Span(p, IsColon, true)..];
    if Free(p, IsColon) {
      assert rest == p;
      SplitFree(p, IsColon);
    }
  }

  lemma SplitHasColon(u: seq<byte>, p: seq<byte>)
    ensures |Split(Joined(u, p), IsColon)| >= 2
  {
    var x := Joined(u, p);
    assert x[|u|] == COLON;
    assert Span(x, IsColon, false) <= |u|;
  }

  /** Round trip with its exact domain: parsing an encoded Basic header always succeeds, and it gives
      back the credentials exactly when neither the user name nor the password contains a colon.
      Section 2 of RFC 7617 would allow colons in the password. */
  lemma HeaderRoundTrip(u: seq<byte>, p: seq<byte>)
    ensures var r := FromHeader(EncodedHeader(Basic(u, p)));
            && r.Success?
            && (r.value == Basic(u, p) <==> Free(u, IsColon) && Free(p, IsColon))
  {
    HeaderCarriesJoined(u, p);
    SplitHasColon(u, p);
    var parts := Split(Joined(u, p), IsColon);
    if Free(u, IsColon) {
      SplitJoined(u, p);
    } else {
      assert forall j :: 0 <= j < |parts[0]| ==> !IsColon(parts[0][j]);
      assert parts[0] != u;
    }
  }

  /** What is left of a string after leading colons, up to the next colon. */
  function FirstToken(s: seq<byte>): seq<byte> {
    var t := s[Span(s, IsColon, true)..];
    t[..Span(t, IsColon, false)]
  }

  lemma SplitStartsWithToken(s: seq<byte>)
    ensures Split(s[Span(s, IsColon, true)..], IsColon)[0] == FirstToken(s)
  {
    var t := s[Span(s, IsColon, true)..];
    assert t[..|t|] == t;
  }

  /** What is lost: when the user name has no colon, leading colons of the password are dropped and the
      rest is cut before its next colon. */
  lemma PasswordIsCutAtColon(u: seq<byte>, p: seq<byte>)
    requires Free(u, IsColon)
    ensures FromHeader(EncodedHeader(Basic(u, p))) == Success(Basic(u, FirstToken(p)))
  {
    HeaderCarriesJoined(u, p);
    SplitFirst(u, COLON, p, IsColon);
    SplitStartsWithToken(p);
  }

  /** A user name is cut before its first colon, and what follows goes to the password; together with
      the previous lemma this says what comes back for all credentials. */
  lemma UsernameIsCutAtColon(u: seq<byte>, v: seq<byte>, p: seq<byte>)
    requires Free(u, IsColon)
    ensures FromHeader(EncodedHeader(Basic(u + [COLON] + v, p)))
         == Success(Basic(u, FirstToken(v + [COLON] + p)))
  {
    assert Joined(u + [COLON] + v, p) == Joined(u, v + [COLON] + p);
    PasswordIsCutAtColon(u, v + [COLON] + p);
  }

  /** Every accepted header is a spelling of a header that parses back to the same object. */
  lemma Canonicalisation(header: seq<byte>)
    requires FromHeader(header).Success?
    ensures var a := FromHeader(header).value;
            a.Basic? && FromHeader(EncodedHeader(a)) == Success(a)
  {
    var value := Decoded(Split(header, IsSpace)[1]);
    var parts := Split(value, IsColon);
    assert forall i :: 0 <= i < 2 ==> forall j :: 0 <= j < |parts[i]| ==> !IsColon(parts[i][j]);
    HeaderRoundTrip(parts[0], parts[1]);
  }

  lemma LettersHaveNoSpace(x: seq<byte>)
    ensures Free(Letters(x), IsSpace)
  {
    EncodedHasNoSpace(x);
    forall i | 0 <= i < |Letters(x)| ensures !IsSpace(Letters(x)[i]) {
      assert Encoded(x)[i] == Letters(x)[i];
    }
  }

  /** Headers with the same decoded token are parsed alike. */
  lemma SameToken(h1: seq<byte>, h2: seq<byte>, t1: seq<byte>, t2: seq<byte>)
    requires Split(h1, IsSpace) == [BASIC, t1] && Split(h2, IsSpace) == [BASIC, t2] && Decoded(t1) == Decoded(t2)
    ensures FromHeader(h1) == FromHeader(h2)
  {
  }

  /** A header without the padding names the same credentials. Its decoded bytes fit the buffer that
      Base64::decode sizes for it exactly if there was no padding to leave out. */
  lemma UnpaddedHeader(u: seq<byte>, p: seq<byte>)
    ensures var token := Letters(Joined(u, p));
            && FromHeader(BASIC + [SPACE] + token) == FromHeader(EncodedHeader(Basic(u, p)))
            && (|Decoded(token)| <= DecodedSize(|token|) <==> |Joined(u, p)| % 3 == 0)
  {
    var x := Joined(u, p);
    LettersHaveNoSpace(x);
    SplitHeader(Letters(x));
    HeaderCarriesJoined(u, p);
    UnpaddedFitsIff(x);
    SameToken(BASIC + [SPACE] + Letters(x), EncodedHeader(Basic(u, p)), Letters(x), Encoded(x));
  }

  /** "Basic OmE", for the empty user name and the password "a", is accepted and does not fit. */
  lemma AcceptedAndTooLong()
    ensures FromHeader([66, 97, 115, 105, 99, 32, 79, 109, 69]) == Success(Basic([], [97]))
    ensures |Decoded([79, 109, 69])| > DecodedSize(3)
  {
    assert Joined([], [97]) == [COLON, 97];
    assert Letters([COLON, 97]) == [79, 109, 69];
    assert BASIC + [SPACE] + [79, 109, 69] == [66, 97, 115, 105, 99, 32, 79, 109, 69];
    UnpaddedHeader([], [97]);
    HeaderRoundTrip([], [97]);
  }

  // ---------------------------------------------------------------- exactly which headers

  /** The first string of `s`: it goes up to the first delimiter. */
  ghost predicate First(s: seq<byte>, delimiters: set<int>, a: seq<byte>) {
    && a <= s && (forall i :: 0 <= i < |a| ==> a[i] !in delimiters)
    && (|a| < |s| ==> s[|a|] in delimiters)
  }

  /** The first two strings of `s`, with a run of delimiters between them. */
  ghost predicate FirstTwo(s: seq<byte>, delimiters: set<int>, a: seq<byte>, b: seq<byte>) {
    exists run: seq<byte>, rest: seq<byte> :: Separated(s, delimiters, a, run, rest) && First(rest, delimiters, b)
  }

  /** `s` is `a`, delimiters, and a rest that does not begin with one. */
  ghost predicate Separated(s: seq<byte>, delimiters: set<int>, a: seq<byte>, run: seq<byte>, rest: seq<byte>) {
    && s == a + (run + rest) && (forall i :: 0 <= i < |a| ==> a[i] !in delimiters)
    && run != [] && (forall i :: 0 <= i < |run| ==> run[i] in delimiters)
    && (rest != [] ==> rest[0] !in delimiters)
  }

  ghost predicate Delimits(p: byte -> bool, delimiters: set<int>) {
    forall c: byte :: p(c) <==> c in delimiters
  }

  lemma FirstIsSpan(s: seq<byte>, p: byte -> bool, delimiters: set<int>, a: seq<byte>)
    requires Delimits(p, delimiters)
    ensures First(s, delimiters, a) <==> a == s[..Span(s, p, false)]
    ensures Split(s, p)[0] == s[..Span(s, p, false)]
  {
    assert s[..|s|] == s;
    if First(s, delimiters, a) {
      assert Span(s, p, false) == |a|;
    }
  }

  lemma Regroup(a: seq<byte>, run: seq<byte>, rest: seq<byte>)
    requires run != []
    ensures a + (run + rest) == a + [run[0]] + (run[1..] + rest)
    ensures (run[1..] + rest)[|run| - 1..] == rest
  {
    assert run == [run[0]] + run[1..];
    Associative([run[0]], run[1..], rest);
    Associative(a, [run[0]], run[1..] + rest);
  }

  lemma SplitOfFirstTwo(
      s: seq<byte>, p: byte -> bool, delimiters: set<int>, a: seq<byte>, run: seq<byte>, rest: seq<byte>)
    requires Delimits(p, delimiters) && Separated(s, delimiters, a, run, rest)
    ensures Split(s, p) == [a] + Split(rest, p)
  {
    Regroup(a, run, rest);
    SplitFirst(a, run[0], run[1..] + rest, p);
    SpanPrefix(run[1..], rest, p, true);
  }

  lemma CutAt(s: seq<byte>, n: nat)
    requires n <= |s|
    ensures s == s[..n] + s[n..]
  {
  }

  lemma SplitSeparates(s: seq<byte>, p: byte -> bool, delimiters: set<int>) returns (run: seq<byte>, rest: seq<byte>)
    requires Delimits(p, delimiters) && |Split(s, p)| >= 2
    ensures Separated(s, delimiters, Split(s, p)[0], run, rest)
  {
    var n := Span(s, p, false);
    var t := s[n..];
    var m := Span(t, p, true);
    run, rest := t[..m], t[m..];
    CutAt(s, n);
    CutAt(t, m);
    assert p(t[0]);
  }

  /** Splitting finds the first two strings, and nothing else. */
  lemma SplitIsFirstTwo(s: seq<byte>, p: byte -> bool, delimiters: set<int>, a: seq<byte>, b: seq<byte>)
    requires Delimits(p, delimiters)
    ensures FirstTwo(s, delimiters, a, b) <==> |Split(s, p)| >= 2 && Split(s, p)[0] == a && Split(s, p)[1] == b
  {
    if FirstTwo(s, delimiters, a, b) {
      var run: seq<byte>, rest: seq<byte> :|
        Separated(s, delimiters, a, run, rest) && First(rest, delimiters, b);
      SplitOfFirstTwo(s, p, delimiters, a, run, rest);
      FirstIsSpan(rest, p, delimiters, b);
    } else if |Split(s, p)| >= 2 {
      var run, rest := SplitSeparates(s, p, delimiters);
      SplitOfFirstTwo(s, p, delimiters, Split(s, p)[0], run, rest);
      FirstIsSpan(rest, p, delimiters, Split(s, p)[1]);
    }
  }

  lemma TwoTokensIffDelimiter(s: seq<byte>, p: byte -> bool)
    ensures |Split(s, p)| >= 2 <==> exists i :: 0 <= i < |s| && p(s[i])
  {
    if |Split(s, p)| >= 2 {
      assert p(s[Span(s, p, false)]);
    }
  }

  /** The header is "Basic", white space, and a token. */
  ghost predicate BasicToken(header: seq<byte>, token: seq<byte>) {
    FirstTwo(header, {9, 10, 11, 12, 13, 32}, [66, 97, 115, 105, 99], token)
  }

  /** What a header says, without reference to how it is parsed: the decoded token is the user name, one or
      more colons, the password, and nothing or another colon and anything after it. */
  ghost predicate Names(header: seq<byte>, u: seq<byte>, p: seq<byte>) {
    exists token :: BasicToken(header, token) && FirstTwo(Decoded(token), {58}, u, p)
  }

  /** Exactly which credentials are read from a header, for all headers. */
  lemma FromHeaderIff(header: seq<byte>, u: seq<byte>, p: seq<byte>)
    ensures FromHeader(header) == Success(Basic(u, p)) <==> Names(header, u, p)
    ensures FromHeader(header) != Success(Anonymous)
  {
    var parts := Split(header, IsSpace);
    forall token
      ensures BasicToken(header, token) <==> |parts| >= 2 && parts[0] == BASIC && parts[1] == token
    {
      SplitIsFirstTwo(header, IsSpace, {9, 10, 11, 12, 13, 32}, BASIC, token);
    }
    if |parts| >= 2 {
      SplitIsFirstTwo(Decoded(parts[1]), IsColon, {58}, u, p);
    }
  }

  /** Exactly which headers are rejected: all but those whose first two tokens are "Basic" and one that
      decodes to something with a colon in it. */
  lemma RejectedIff(header: seq<byte>)
    ensures FromHeader(header).Failure?
       <==> !exists token :: BasicToken(header, token) && 58 in Decoded(token)
  {
    var parts := Split(header, IsSpace);
    forall token
      ensures BasicToken(header, token) <==> |parts| >= 2 && parts[0] == BASIC && parts[1] == token
    {
      SplitIsFirstTwo(header, IsSpace, {9, 10, 11, 12, 13, 32}, BASIC, token);
    }
    if |parts| >= 2 {
      TwoTokensIffDelimiter(Decoded(parts[1]), IsColon);
    }
  }

  /** The header itself: "Basic " and the encoding of user name, colon and password. */
  lemma HeaderText(u: seq<byte>, p: seq<byte>)
    ensures EncodedHeader(Basic(u, p)) == [66, 97, 115, 105, 99, 32] + Encoded(u + [58] + p)
    ensures EncodedHeader(Anonymous) == []
  {
    assert BASIC + [SPACE] == [66, 97, 115, 105, 99, 32];
  }

  // ---------------------------------------------------------------- client and server

  /** The client sets the authorization field unless it is anonymous (src/client.cpp:129-130). */
  function AuthorizationField(a: Authentication): Option<seq<byte>> {
    if a.Anonymous? then None else Some(EncodedHeader(a))
  }

  /** The server starts from an anonymous object, parses the field if there is one, and keeps the
      anonymous object when parsing throws. */
  function ReadAuthorization(field: Option<seq<byte>>): Authentication {
    match field
    case None => Anonymous
    case Some(header) =>
      match FromHeader(header)
      case Success(a) => a
      case Failure(_) => Anonymous
  }

  /** For every field: the authenticator sees the credentials that the header names, and an anonymous
      object if there is no field or it names none. */
  lemma AuthenticatorSees(field: Option<seq<byte>>, u: seq<byte>, p: seq<byte>)
    ensures ReadAuthorization(field) == Basic(u, p) <==> field.Some? && Names(field.value, u, p)
    ensures ReadAuthorization(field) == Anonymous
       <==> field.None? || !exists token :: BasicToken(field.value, token) && 58 in Decoded(token)
  {
    if field.Some? {
      FromHeaderIff(field.value, u, p);
      RejectedIff(field.value);
      if FromHeader(field.value).Success? {
        var a := FromHeader(field.value).value;
        assert a.Basic?;
      }
    }
  }

  /** What the server passes to its authenticator is what the client holds, for anonymous clients and
      for exactly those Basic credentials that contain no colon. */
  lemma WireAgreement(a: Authentication)
    ensures ReadAuthorization(AuthorizationField(a)) == a
        <==> a.Anonymous? || (Free(a.username, IsColon) && Free(a.password, IsColon))
    ensures AuthorizationField(a).None? <==> a.Anonymous?
  {
    if a.Basic? {
      HeaderRoundTrip(a.username, a.password);
    }
  }
}
