/** The session cookie as the auth service writes and reads it, and as the API reads it. */
module Cookies {
  import opened Collections

  // ---- JavaScript strings ----

  /** The first position of a character, or -1. */
  function IndexOf(s: string, c: char): (r: int)
    ensures -1 <= r < |s|
    ensures forall j :: 0 <= j < (if r < 0 then |s| else r) ==> s[j] != c
    ensures r >= 0 ==> s[r] == c
  {
    if s == "" then -1
    else if s[0] == c then 0
    else
      var r := IndexOf(s[1..], c);
      assert forall j :: 1 <= j < |s| ==> s[j] == s[1..][j - 1];
      if r < 0 then -1 else r + 1
  }

  function Split(s: string, c: char): (r: seq<string>)
    ensures |r| >= 1
    decreases |s|
  {
    var i := IndexOf(s, c);
    if i < 0 then [s] else [s[..i]] + Split(s[i + 1..], c)
  }

  function Join(entries: seq<string>, separator: string): string {
    if entries == [] then ""
    else if |entries| == 1 then entries[0]
    else entries[0] + separator + Join(entries[1..], separator)
  }

  predicate IsSpace(c: char) {
    || c in {'\t', '\n', '\r', ' ', '\U{0B}', '\U{0C}', '\U{A0}', '\U{1680}'}
    || c in {'\U{2028}', '\U{2029}', '\U{202F}', '\U{205F}', '\U{3000}', '\U{FEFF}'}
    || '\U{2000}' <= c <= '\U{200A}'
  }

  function TrimStart(s: string): string {
    if s != "" && IsSpace(s[0]) then TrimStart(s[1..]) else s
  }

  function TrimEnd(s: string): string {
    if s != "" && IsSpace(s[|s| - 1]) then TrimEnd(s[..|s| - 1]) else s
  }

  function Trim(s: string): string {
    TrimEnd(TrimStart(s))
  }

  function Decimal(n: nat): (r: string)
    ensures r != "" && forall c :: c in r ==> '0' <= c <= '9'
  {
    var last := ['0' + (n % 10) as char];
    if n < 10 then last else Decimal(n / 10) + last
  }

  // ---- What a header says ----

  predicate IsTokenCharacter(c: char) {
    'A' <= c <= 'Z' || 'a' <= c <= 'z' || '0' <= c <= '9' || c == '_' || c == '-'
  }

  predicate IsToken(s: string) {
    32 <= |s| <= 512 && forall c :: c in s ==> IsTokenCharacter(c)
  }

  datatype Cookie = Cookie(name: string, value: string)

  /** A part without a name before its first `=` is not a cookie. */
  function ReadPart(part: string): Option<Cookie> {
    var separator := IndexOf(part, '=');
    if separator < 1 || Trim(part[..separator]) == "" then None
    else Some(Cookie(Trim(part[..separator]), Trim(part[separator + 1..])))
  }

  predicate Names(part: string, name: string) {
    ReadPart(part).Some? && ReadPart(part).value.name == name
  }

  /** The value of the first cookie of a name. */
  function FirstValue(parts: seq<string>, name: string): Option<string> {
    if parts == [] then None
    else if Names(parts[0], name) then Some(ReadPart(parts[0]).value.value)
    else FirstValue(parts[1..], name)
  }

  function Parts(header: Option<string>): seq<string> {
    if header.None? then [] else Split(header.value, ';')
  }

  /** The token a header carries under a name: the first cookie of that name decides. */
  function TokenOf(header: Option<string>, name: string): Option<string> {
    var value := FirstValue(Parts(header), name);
    if value.Some? && IsToken(value.value) then value else None
  }

  lemma {:induction false} FirstValueOfMore(parts: seq<string>, part: string, name: string)
    ensures FirstValue(parts + [part], name) ==
      if FirstValue(parts, name).Some? then FirstValue(parts, name)
      else if Names(part, name) then Some(ReadPart(part).value.value) else None
  {
    if parts == [] {
      assert parts + [part] == [part];
    } else {
      FirstValueOfMore(parts[1..], part, name);
      assert (parts + [part])[1..] == parts[1..] + [part];
    }
  }

  // ---- The auth service ----

  const SECURE_NAME := "__Host-kovcheg_session"
  const PLAIN_NAME := "kovcheg_session"
  const MAXIMUM_SAFE_INTEGER: int := 9_007_199_254_740_991

  datatype Environment = Development | Production | Test

  /** The map holds for every name the value of its first cookie. */
  ghost predicate HoldsFirst(cookies: map<string, string>, parts: seq<string>) {
    forall name :: (if name in cookies then Some(cookies[name]) else None) == FirstValue(parts, name)
  }

  lemma HoldsFirstOfMore(cookies: map<string, string>, parts: seq<string>, part: string)
    requires HoldsFirst(cookies, parts)
    ensures
      var cookie := ReadPart(part);
      HoldsFirst(
        if cookie.Some? && cookie.value.name !in cookies then cookies[cookie.value.name := cookie.value.value]
          else cookies,
        parts + [part])
  {
    hide ReadPart, FirstValue;
    forall name ensures FirstValue(parts + [part], name) ==
      if FirstValue(parts, name).Some? then FirstValue(parts, name)
      else if Names(part, name) then Some(ReadPart(part).value.value) else None
    {
      FirstValueOfMore(parts, part, name);
    }
  }

  method ParseCookieHeader(header: Option<string>) returns (cookies: map<string, string>)
    ensures HoldsFirst(cookies, Parts(header))
  {
    cookies := map[];
    var parts := Parts(header);
    assert HoldsFirst(cookies, parts[..0]);
    hide HoldsFirst;
    for i := 0 to |parts|
      invariant HoldsFirst(cookies, parts[..i])
    {
      var part := parts[i];
      assert parts[..i + 1] == parts[..i] + [part];
      HoldsFirstOfMore(cookies, parts[..i], part);
      var separator := IndexOf(part, '=');
      if separator < 1 { continue; }
      var name := Trim(part[..separator]);
      var value := Trim(part[separator + 1..]);
      if |name| > 0 && name !in cookies {
        cookies := cookies[name := value];
      }
    }
    assert parts[..|parts|] == parts;
  }

  datatype Issued = InvalidShape | Header(value: string)

  function Serialized(name: string, value: string, maxAge: nat, secure: bool): string {
    Join([name + "=" + value, "Path=/", "HttpOnly", "SameSite=Lax", "Max-Age=" + Decimal(maxAge)] +
      if secure then ["Secure"] else [], "; ")
  }

  class SessionCookie {
    const secure: bool
    const name: string
    const maxAgeSeconds: nat

    constructor (absoluteLifetimeMs: int, environment: Environment, secure: bool)
      requires 0 < absoluteLifetimeMs <= MAXIMUM_SAFE_INTEGER && (environment.Production? ==> secure)
      ensures this.secure == secure && name == (if secure then SECURE_NAME else PLAIN_NAME)
      ensures 1_000 * (maxAgeSeconds - 1) < absoluteLifetimeMs <= 1_000 * maxAgeSeconds
    {
      this.secure := secure;
      name := if secure then SECURE_NAME else PLAIN_NAME;
      maxAgeSeconds := (absoluteLifetimeMs + 999) / 1_000;
    }

    method Clear() returns (header: string)
      ensures header == Serialized(name, "", 0, secure)
      ensures IsSessionName(name) ==> TokenOf(Some(header), name) == None
    {
      if IsSessionName(name) { SerializedCarriesTheValue(name, "", 0, secure); }
      header := Serialized(name, "", 0, secure);
    }

    method Issue(sessionToken: string) returns (r: Issued)
      ensures r == if IsToken(sessionToken) then Header(Serialized(name, sessionToken, maxAgeSeconds, secure))
        else InvalidShape
      ensures r.Header? <==> 32 <= |sessionToken| <= 512 && forall c :: c in sessionToken ==>
        'A' <= c <= 'Z' || 'a' <= c <= 'z' || '0' <= c <= '9' || c == '_' || c == '-'
      ensures IsSessionName(name) && r.Header? ==> TokenOf(Some(r.value), name) == Some(sessionToken)
    {
      if !IsToken(sessionToken) { return InvalidShape; }
      if IsSessionName(name) { SerializedCarriesTheValue(name, sessionToken, maxAgeSeconds, secure); }
      r := Header(Serialized(name, sessionToken, maxAgeSeconds, secure));
    }

    method Read(header: Option<string>) returns (token: Option<string>)
      ensures token == TokenOf(header, name)
    {
      var cookies := ParseCookieHeader(header);
      if name in cookies && IsToken(cookies[name]) { return Some(cookies[name]); }
      token := None;
    }
  }

  datatype Created = InvalidLifetime | InsecureProduction | Created(cookie: SessionCookie)

  method CreateSessionCookie(absoluteLifetimeMs: int, environment: Environment, secure: bool) returns (r: Created)
    ensures r.InvalidLifetime? <==> !(0 < absoluteLifetimeMs <= MAXIMUM_SAFE_INTEGER)
    ensures r.Created? ==>
      && fresh(r.cookie) && (environment.Production? ==> secure)
      && r.cookie.secure == secure && r.cookie.name == (if secure then SECURE_NAME else PLAIN_NAME)
    ensures r.InsecureProduction?
      <==> 0 < absoluteLifetimeMs <= MAXIMUM_SAFE_INTEGER && environment.Production? && !secure
  {
    if absoluteLifetimeMs <= 0 || absoluteLifetimeMs > MAXIMUM_SAFE_INTEGER { return InvalidLifetime; }
    if environment.Production? && !secure { return InsecureProduction; }
    var cookie := new SessionCookie(absoluteLifetimeMs, environment, secure);
    r := Created(cookie);
  }

  // ---- The API ----

  function ApiName(environment: Environment): string {
    if environment.Production? then SECURE_NAME else PLAIN_NAME
  }

  /** What the API passes on: its cookie printed anew. */
  function Printed(token: Option<string>, name: string): Option<string> {
    if token.Some? then Some(name + "=" + token.value) else None
  }

  /** The API returns `name=token` exactly when the auth service, asked for the same name, reads `token`. */
  method ParseSessionCookie(header: Option<string>, environment: Environment) returns (r: Option<string>)
    ensures r == Printed(TokenOf(header, ApiName(environment)), ApiName(environment))
  {
    var expectedName := ApiName(environment);
    var parts := Parts(header);
    for i := 0 to |parts|
      invariant FirstValue(parts[i..], expectedName) == FirstValue(parts, expectedName)
    {
      var part := parts[i];
      assert parts[i..][0] == part && parts[i..][1..] == parts[i + 1..];
      var separator := IndexOf(part, '=');
      if separator < 1 || Trim(part[..separator]) != expectedName { continue; }
      var token := Trim(part[separator + 1..]);
      return if IsToken(token) then Some(expectedName + "=" + token) else None;
    }
    r := None;
  }

  /** The two services look for the same cookie exactly when it is secure in production and only there. */
  lemma NamesAgree(environment: Environment, secure: bool)
    ensures (if secure then SECURE_NAME else PLAIN_NAME) == ApiName(environment)
      <==> (secure <==> environment.Production?)
  {
    assert |SECURE_NAME| != |PLAIN_NAME|;
  }

  // ---- Round trips ----

  ghost predicate IsEntry(s: string) {
    forall i :: 0 <= i < |s| ==> s[i] != ';'
  }

  predicate IsSessionName(name: string) {
    name == SECURE_NAME || name == PLAIN_NAME
  }

  function Indented(entries: seq<string>): seq<string> {
    seq(|entries|, i requires 0 <= i < |entries| => " " + entries[i])
  }

  lemma SplitAtFirst(before: string, c: char, rest: string)
    requires forall i :: 0 <= i < |before| ==> before[i] != c
    ensures IndexOf(before + [c] + rest, c) == |before|
    ensures Split(before + [c] + rest, c) == [before] + Split(rest, c)
  {
    var s := before + [c] + rest;
    assert s[|before|] == c && forall i :: 0 <= i < |before| ==> s[i] == before[i];
    assert s[..|before|] == before && s[|before| + 1..] == rest;
  }

  lemma SplitOfEntry(s: string)
    requires IsEntry(s)
    ensures Split(s, ';') == [s]
  {
  }

  lemma JoinStep(entries: seq<string>, separator: string)
    ensures |entries| == 1 ==> Join(entries, separator) == entries[0]
    ensures |entries| > 1 ==> Join(entries, separator) == entries[0] + separator + Join(entries[1..], separator)
  {
  }

  /** Splitting a cookie list at its semicolons gives its entries, all but the first with a space in front. */
  lemma {:induction false} SplitOfJoin(prefix: string, entries: seq<string>)
    requires IsEntry(prefix) && entries != [] && forall e :: e in entries ==> IsEntry(e)
    ensures Split(prefix + Join(entries, "; "), ';') == [prefix + entries[0]] + Indented(entries[1..])
    decreases |entries|
  {
    hide IndexOf, Split, Join;
    JoinStep(entries, "; ");
    assert entries[0] in entries;
    var first := prefix + entries[0];
    if |entries| == 1 {
      SplitOfEntry(first);
    } else {
      SplitOfJoin(" ", entries[1..]);
      var rest := " " + Join(entries[1..], "; ");
      SplitAtFirst(first, ';', rest);
      assert prefix + Join(entries, "; ") == first + [';'] + rest;
      assert Indented(entries[1..]) == [" " + entries[1]] + Indented(entries[1..][1..]);
    }
  }

  lemma {:induction false} PartsOfList(entries: seq<string>)
    requires entries != [] && forall e :: e in entries ==> IsEntry(e)
    ensures Parts(Some(Join(entries, "; "))) == [entries[0]] + Indented(entries[1..])
  {
    SplitOfJoin("", entries);
    assert "" + Join(entries, "; ") == Join(entries, "; ") && "" + entries[0] == entries[0];
  }

  lemma TrimSkipsSpace(s: string)
    ensures Trim(" " + s) == Trim(s)
  {
    assert (" " + s)[1..] == s;
  }

  lemma IndentedReadsTheSame(e: string)
    ensures ReadPart(" " + e) == ReadPart(e)
  {
    var i := IndexOf(e, '=');
    var t := " " + e;
    assert t[1..] == e;
    assert IndexOf(t, '=') == if i < 0 then -1 else i + 1;
    hide Trim, IndexOf;
    if i >= 0 {
      assert t[..i + 1] == " " + e[..i] && t[i + 2..] == e[i + 1..];
      TrimSkipsSpace(e[..i]);
      if i == 0 { assert e[..0] == ""; EmptyTrims(); }
    }
  }

  lemma EmptyTrims()
    ensures Trim("") == ""
  {
  }

  lemma TrimKeeps(s: string)
    requires s != "" && !IsSpace(s[0]) && !IsSpace(s[|s| - 1])
    ensures Trim(s) == s
  {
  }

  lemma SessionNameIsPlain(name: string)
    requires IsSessionName(name)
    ensures name != "" && Trim(name) == name && IsEntry(name) && forall i :: 0 <= i < |name| ==> name[i] != '='
  {
    TrimKeeps(SECURE_NAME);
    TrimKeeps(PLAIN_NAME);
  }

  lemma TokenIsPlain(token: string)
    requires IsToken(token)
    ensures Trim(token) == token && IsEntry(token)
  {
    assert forall i :: 0 <= i < |token| ==> token[i] in token;
    TrimKeeps(token);
  }

  /** A printed cookie says what it was printed from. */
  lemma PrintedReads(name: string, value: string)
    requires IsSessionName(name) && Trim(value) == value
    ensures ReadPart(name + "=" + value) == Some(Cookie(name, value))
  {
    hide Trim;
    SessionNameIsPlain(name);
    var s := name + "=" + value;
    SplitAtFirst(name, '=', value);
    assert s == name + ['='] + value;
    assert s[..|name|] == name && s[|name| + 1..] == value;
  }

  lemma {:induction false} FirstOfParts(parts: seq<string>, k: nat, name: string)
    requires k < |parts| && Names(parts[k], name) && forall i :: 0 <= i < k ==> !Names(parts[i], name)
    ensures FirstValue(parts, name) == Some(ReadPart(parts[k]).value.value)
    decreases k
  {
    if k > 0 {
      FirstOfParts(parts[1..], k - 1, name);
    }
  }

  /** In any cookie list (section 4.2.1 of RFC 6265) the first entry of the name decides. */
  lemma FirstEntryIsRead(name: string, value: string, entries: seq<string>, k: nat)
    requires IsSessionName(name) && Trim(value) == value
    requires k < |entries| && entries[k] == name + "=" + value && forall e :: e in entries ==> IsEntry(e)
    requires forall i :: 0 <= i < k ==> !Names(entries[i], name)
    ensures FirstValue(Parts(Some(Join(entries, "; "))), name) == Some(value)
  {
    hide Trim, ReadPart, FirstValue, Join;
    PartsOfList(entries);
    var parts := [entries[0]] + Indented(entries[1..]);
    forall i | 0 <= i < |entries| ensures ReadPart(parts[i]) == ReadPart(entries[i]) {
      IndentedReadsTheSame(entries[i]);
    }
    PrintedReads(name, value);
    FirstOfParts(parts, k, name);
  }

  /** A token that may be issued is read back from any list in which it is the first entry of its name. */
  lemma IssuedTokenIsReadBack(name: string, token: string, entries: seq<string>, k: nat)
    requires IsSessionName(name) && IsToken(token)
    requires k < |entries| && entries[k] == name + "=" + token && forall e :: e in entries ==> IsEntry(e)
    requires forall i :: 0 <= i < k ==> !Names(entries[i], name)
    ensures TokenOf(Some(Join(entries, "; ")), name) == Some(token)
  {
    TokenIsPlain(token);
    FirstEntryIsRead(name, token, entries, k);
  }

  /** For one name, the API's answer is `name=token` exactly when the auth service's is `token`. */
  lemma ReadersAgree(header: Option<string>, name: string, token: string)
    ensures Printed(TokenOf(header, name), name) == Some(name + "=" + token) <==> TokenOf(header, name) == Some(token)
  {
    var read := TokenOf(header, name);
    if read.Some? {
      assert (name + "=" + read.value)[|name| + 1..] == read.value;
      assert (name + "=" + token)[|name| + 1..] == token;
    }
  }

  /** What the API passes on, the auth service reads as the same token, or as none. */
  lemma ReprintingKeepsTheToken(header: Option<string>, name: string)
    requires IsSessionName(name)
    ensures TokenOf(Printed(TokenOf(header, name), name), name) == TokenOf(header, name)
  {
    hide FirstValue, Parts;
    var token := TokenOf(header, name);
    if token.Some? {
      SessionNameIsPlain(name);
      TokenIsPlain(token.value);
      var entry := name + "=" + token.value;
      assert IsEntry(entry);
      IssuedTokenIsReadBack(name, token.value, [entry], 0);
      assert Join([entry], "; ") == entry;
    } else {
      assert FirstValue(Parts(None), name) == None by { NothingIsRead(name); }
    }
  }

  lemma NothingIsRead(name: string)
    ensures FirstValue(Parts(None), name) == None
  {
  }

  /** The header that sets a session carries its token, and the one that clears it carries none. */
  lemma SerializedCarriesTheValue(name: string, value: string, maxAge: nat, secure: bool)
    requires IsSessionName(name) && (IsToken(value) || value == "")
    ensures TokenOf(Some(Serialized(name, value, maxAge, secure)), name) == if value == "" then None else Some(value)
  {
    SessionNameIsPlain(name);
    if value == "" { EmptyTrims(); } else { TokenIsPlain(value); }
    var entries := [name + "=" + value, "Path=/", "HttpOnly", "SameSite=Lax", "Max-Age=" + Decimal(maxAge)] +
      if secure then ["Secure"] else [];
    assert IsEntry("Max-Age=" + Decimal(maxAge)) by {
      assert forall i :: 0 <= i < |Decimal(maxAge)| ==> Decimal(maxAge)[i] in Decimal(maxAge);
    }
    assert IsEntry(name + "=" + value) && IsEntry("Path=/") && IsEntry("HttpOnly") && IsEntry("SameSite=Lax")
      && IsEntry("Secure");
    FirstEntryIsRead(name, value, entries, 0);
  }

  /** The number that digits write. */
  function ValueOf(digits: string): int {
    if digits == "" then 0
    else 10 * ValueOf(digits[..|digits| - 1]) + (digits[|digits| - 1] as int - '0' as int)
  }

  lemma {:induction false} DecimalIsRead(n: nat)
    ensures ValueOf(Decimal(n)) == n
  {
    var last := ['0' + (n % 10) as char];
    if n < 10 {
      assert Decimal(n)[..0] == "" && ValueOf("") == 0;
    } else {
      DecimalIsRead(n / 10);
      assert Decimal(n) == Decimal(n / 10) + last;
      assert Decimal(n)[..|Decimal(n)| - 1] == Decimal(n / 10);
    }
  }

  function Attributes(maxAge: nat, secure: bool): seq<string> {
    ["Path=/", "HttpOnly", "SameSite=Lax", "Max-Age=" + Decimal(maxAge)] + if secure then ["Secure"] else []
  }

  lemma AttributesAreEntries(maxAge: nat, secure: bool)
    ensures forall e :: e in Attributes(maxAge, secure) ==> IsEntry(e)
  {
    assert IsEntry("Max-Age=" + Decimal(maxAge)) by {
      assert forall i :: 0 <= i < |Decimal(maxAge)| ==> Decimal(maxAge)[i] in Decimal(maxAge);
    }
    assert IsEntry("Path=/") && IsEntry("HttpOnly") && IsEntry("SameSite=Lax") && IsEntry("Secure");
  }

  lemma PairIsEntry(name: string, value: string)
    requires IsSessionName(name) && (IsToken(value) || value == "")
    ensures IsEntry(name + "=" + value)
  {
    SessionNameIsPlain(name);
    if value != "" { TokenIsPlain(value); }
  }

  /**
   * What a browser reads in the header, cut at its semicolons: the cookie, valid for every path, out of
   * reach of scripts and of other sites' requests, for as many seconds as said, and for secure
   * connections only if so configured. A name with the host prefix thus has what that prefix demands.
   */
  lemma SerializedAttributes(name: string, value: string, maxAge: nat, secure: bool)
    requires IsSessionName(name) && (IsToken(value) || value == "")
    ensures
      var parts := Split(Serialized(name, value, maxAge, secure), ';');
      && |parts| == (if secure then 6 else 5)
      && parts[0] == name + "=" + value && parts[1] == " " + "Path=/" && parts[2] == " " + "HttpOnly"
      && parts[3] == " " + "SameSite=Lax" && parts[4] == " " + ("Max-Age=" + Decimal(maxAge))
      && ValueOf(Decimal(maxAge)) == maxAge
      && (secure ==> parts[5] == " " + "Secure")
  {
    hide Split, Join, Decimal, ValueOf, IsEntry, IsToken, IsSessionName;
    var pair, rest := name + "=" + value, Attributes(maxAge, secure);
    PairIsEntry(name, value);
    DecimalIsRead(maxAge);
    AttributesAreEntries(maxAge, secure);
    var entries := [pair] + rest;
    assert entries[1..] == rest;
    PartsOfList(entries);
    assert entries == [pair, "Path=/", "HttpOnly", "SameSite=Lax", "Max-Age=" + Decimal(maxAge)]
      + if secure then ["Secure"] else [];
  }
}
