/** The URL state machine, the text of a URL, and exactly which URLs survive the way there and back. */
module Url {
  import opened Octets

  type Text = seq<byte>

  const COLON: byte := 0x3A
  const SLASH: byte := 0x2F
  const QUESTION: byte := 0x3F
  const HASH: byte := 0x23

  datatype Url = Url(scheme: Text, authority: Text, path: Text, query: Text, fragment: Text)

  const EMPTY := Url([], [], [], [], [])

  // ---- printing ----

  function QueryText(q: Text): Text { if q == [] then [] else [QUESTION] + q }

  function FragmentText(f: Text): Text { if f == [] then [] else [HASH] + f }

  function Tail(u: Url): Text { QueryText(u.query) + FragmentText(u.fragment) }

  function SchemeText(s: Text): Text { if s == [] then [] else s + [COLON] }

  function AuthorityText(a: Text): Text { if a == [] then [] else [SLASH, SLASH] + a }

  function ToString(u: Url): Text { SchemeText(u.scheme) + (AuthorityText(u.authority) + (u.path + Tail(u))) }

  // ---- parsing ----

  predicate IsSpace(b: byte) { b == 0x20 || 9 <= b <= 13 }

  function SkipSpaces(t: Text): (r: Text)
    ensures |r| <= |t| && (r != [] ==> !IsSpace(r[0])) && (t != [] && !IsSpace(t[0]) ==> r == t)
  {
    if t != [] && IsSpace(t[0]) then SkipSpaces(t[1..]) else t
  }

  /** How far it is to the first stop character, or to the end. */
  function Cut(t: Text, stop: set<byte>): (k: nat)
    ensures k <= |t| && (k < |t| ==> t[k] in stop) && forall i :: 0 <= i < k ==> t[i] !in stop
  {
    if t == [] || t[0] in stop then 0 else 1 + Cut(t[1..], stop)
  }

  const PATH_END: set<byte> := {QUESTION, HASH}
  const AUTHORITY_END: set<byte> := {SLASH, QUESTION, HASH}
  const SCHEME_END: set<byte> := {COLON, QUESTION, HASH}

  // What each state makes of the text that is left.

  function Fragment(buffer: Text, t: Text, u: Url): Url { u.(fragment := buffer + t) }

  function Query(buffer: Text, t: Text, u: Url): (r: Url)
    ensures r.scheme == u.scheme && r.authority == u.authority && r.path == u.path
  {
    var k := Cut(t, {HASH});
    var v := u.(query := buffer + t[..k]);
    if k == |t| then v else FragmentStart(t[k + 1..], v)
  }

  function FragmentStart(t: Text, u: Url): Url { if t == [] then u else Fragment([t[0]], t[1..], u) }

  function QueryStart(t: Text, u: Url): (r: Url)
    ensures r.scheme == u.scheme && r.authority == u.authority && r.path == u.path
  {
    if t == [] then u else Query([t[0]], t[1..], u)
  }

  /** Behind the path: a query, a fragment or nothing. */
  function AfterPath(t: Text, u: Url): (r: Url)
    requires t == [] || t[0] in PATH_END
    ensures r.scheme == u.scheme && r.authority == u.authority && r.path == u.path
  {
    if t == [] then u else if t[0] == QUESTION then QueryStart(t[1..], u) else FragmentStart(t[1..], u)
  }

  function Path(buffer: Text, t: Text, u: Url): (r: Url)
    ensures r.scheme == u.scheme && r.authority == u.authority
  {
    var k := Cut(t, PATH_END);
    AfterPath(t[k..], u.(path := buffer + t[..k]))
  }

  function Authority(buffer: Text, t: Text, u: Url): (r: Url)
    ensures r.scheme == u.scheme
  {
    var k := Cut(t, AUTHORITY_END);
    var v := u.(authority := buffer + t[..k]);
    if k < |t| && t[k] == SLASH then Path([SLASH], t[k + 1..], v) else AfterPath(t[k..], v)
  }

  function AuthorityStart(t: Text, u: Url): (r: Url)
    ensures r.scheme == u.scheme
  {
    if t == [] then u else Authority([t[0]], t[1..], u)
  }

  function SecondSlash(buffer: Text, t: Text, u: Url): (r: Url)
    ensures r.scheme == u.scheme
  {
    if t == [] then u.(path := buffer)
    else if t[0] == SLASH then AuthorityStart(t[1..], u)
    else Path(buffer + [t[0]], t[1..], u)
  }

  function AfterScheme(t: Text, u: Url): (r: Url)
    ensures r.scheme == u.scheme
  {
    if t == [] then u
    else if t[0] == SLASH then SecondSlash([], t[1..], u)
    else Path([t[0]], t[1..], u)
  }

  function Scheme(buffer: Text, t: Text, u: Url): Url {
    var k := Cut(t, SCHEME_END);
    if k < |t| && t[k] == COLON then AfterScheme(t[k + 1..], u.(scheme := buffer + t[..k]))
    else AfterPath(t[k..], u.(path := buffer + t[..k]))
  }

  function Start(t: Text, u: Url): Url {
    if t == [] then u
    else if t[0] == COLON then Path([COLON], t[1..], u)
    else if t[0] == SLASH then SecondSlash([SLASH], t[1..], u)
    else if t[0] in PATH_END then AfterPath(t, u)
    else Scheme([t[0]], t[1..], u)
  }

  /** The text up to the first NUL. */
  function CStr(t: Text): Text { t[..Cut(t, {0})] }

  function Parse(t: Text): Url { Start(SkipSpaces(CStr(t)), EMPTY) }
}
