/** Which URLs are the same after printing and parsing: exactly the canonical ones. */
module UrlRoundTrip {
  import opened Octets
  import opened Url

  predicate Free(t: Text, stop: set<byte>) { forall i :: 0 <= i < |t| ==> t[i] !in stop }

  predicate SchemeOk(s: Text) { s == [] || (!IsSpace(s[0]) && s[0] != SLASH && Free(s, SCHEME_END)) }

  predicate AuthorityOk(a: Text) { a == [] || Free(a[1..], AUTHORITY_END) }

  predicate QueryOk(q: Text) { q == [] || Free(q[1..], {HASH}) }

  predicate NulFree(u: Url) {
    0 !in u.scheme && 0 !in u.authority && 0 !in u.path && 0 !in u.query && 0 !in u.fragment
  }

  /** Behind an authority, a path is empty or begins with a slash. */
  predicate PathOk(p: Text) { p == [] || (p[0] == SLASH && Free(p[1..], PATH_END)) }

  /** Directly behind a scheme, a path must not begin with a slash, and must not be missing before a query. */
  predicate OpaquePathOk(p: Text, tail: Text) {
    if p == [] then tail == [] else p[0] != SLASH && Free(p[1..], PATH_END)
  }

  /** A path on its own must not look like a scheme, an authority, a query or a fragment. */
  predicate BarePathOk(p: Text, tail: Text) {
    if p == [] then true
    else if p[0] == SLASH then
      if |p| == 1 then tail == [] else p[1] != SLASH && Free(p[2..], PATH_END)
    else if p[0] == COLON then Free(p[1..], PATH_END)
    else !IsSpace(p[0]) && Free(p, SCHEME_END)
  }

  predicate Canonical(u: Url) {
    && NulFree(u) && SchemeOk(u.scheme) && AuthorityOk(u.authority) && QueryOk(u.query)
    && if u.authority != [] then PathOk(u.path)
       else if u.scheme != [] then OpaquePathOk(u.path, Tail(u))
       else BarePathOk(u.path, Tail(u))
  }

  // ---- cutting ----

  lemma {:induction false} CutOf(a: Text, b: Text, stop: set<byte>)
    requires Free(a, stop) && (b == [] || b[0] in stop)
    ensures Cut(a + b, stop) == |a| && (a + b)[..|a|] == a && (a + b)[|a|..] == b
  {
    if a == [] {
      assert a + b == b;
    } else {
      assert (a + b)[1..] == a[1..] + b;
      CutOf(a[1..], b, stop);
    }
  }

  lemma CutInside(a: Text, b: Text, stop: set<byte>)
    requires !Free(a, stop)
    ensures Cut(a + b, stop) < |a|
  {
    var i :| 0 <= i < |a| && a[i] in stop;
    assert (a + b)[i] in stop;
  }

  lemma CutIsFree(t: Text, stop: set<byte>)
    ensures Free(t[..Cut(t, stop)], stop)
  {
  }

  // ---- shapes: what any parse can yield ----

  predicate NoNul(t: Text) { 0 !in t }

  predicate Shaped(u: Url) { AuthorityOk(u.authority) && QueryOk(u.query) && NulFree(u) }

  lemma AfterPathShape(t: Text, u: Url)
    requires (t == [] || t[0] in PATH_END) && NoNul(t) && Shaped(u)
    ensures Shaped(AfterPath(t, u))
  {
    if t != [] && t[0] == QUESTION && |t| > 1 {
      var v := t[1..][1..];
      CutIsFree(v, {HASH});
      assert ([t[1]] + v[..Cut(v, {HASH})])[1..] == v[..Cut(v, {HASH})];
    }
  }

  lemma PathShape(buffer: Text, t: Text, u: Url)
    requires NoNul(buffer) && NoNul(t) && Shaped(u)
    ensures Shaped(Path(buffer, t, u))
    ensures buffer != [] ==> Path(buffer, t, u).path != [] && Path(buffer, t, u).path[0] == buffer[0]
  {
    hide AfterPath;
    var k := Cut(t, PATH_END);
    AfterPathShape(t[k..], u.(path := buffer + t[..k]));
  }

  lemma AuthorityShape(c: byte, t: Text, u: Url)
    requires c != 0 && NoNul(t) && Shaped(u)
    ensures Shaped(Authority([c], t, u)) && Authority([c], t, u).authority != []
  {
    hide AfterPath, Path;
    var k := Cut(t, AUTHORITY_END);
    CutIsFree(t, AUTHORITY_END);
    var v := u.(authority := [c] + t[..k]);
    assert v.authority[1..] == t[..k];
    if k < |t| && t[k] == SLASH {
      PathShape([SLASH], t[k + 1..], v);
    } else {
      AfterPathShape(t[k..], v);
    }
  }

  lemma SecondSlashShape(buffer: Text, t: Text, u: Url)
    requires NoNul(buffer) && NoNul(t) && Shaped(u)
    ensures Shaped(SecondSlash(buffer, t, u))
    ensures var r := SecondSlash(buffer, t, u);
      buffer != [] && u.path == [] && r.authority == [] && r.path != [] ==> r.path[0] == buffer[0]
  {
    hide Path, Authority;
    if t != [] {
      if t[0] == SLASH {
        if |t| > 1 {
          AuthorityShape(t[1], t[1..][1..], u);
        }
      } else {
        PathShape(buffer + [t[0]], t[1..], u);
      }
    }
  }

  lemma AfterSchemeShape(t: Text, u: Url)
    requires NoNul(t) && Shaped(u)
    ensures Shaped(AfterScheme(t, u))
  {
    hide Path, SecondSlash;
    if t != [] {
      if t[0] == SLASH {
        SecondSlashShape([], t[1..], u);
      } else {
        PathShape([t[0]], t[1..], u);
      }
    }
  }

  lemma SchemeShape(c: byte, t: Text)
    requires c != 0 && c != SLASH && c !in SCHEME_END && !IsSpace(c) && NoNul(t)
    ensures var r := Scheme([c], t, EMPTY);
      && Shaped(r) && SchemeOk(r.scheme)
      && (r.scheme == [] && r.authority == [] ==> r.path != [] && r.path[0] == c)
  {
    hide AfterPath, AfterScheme;
    var k := Cut(t, SCHEME_END);
    CutIsFree(t, SCHEME_END);
    if k < |t| && t[k] == COLON {
      AfterSchemeShape(t[k + 1..], EMPTY.(scheme := [c] + t[..k]));
    } else {
      AfterPathShape(t[k..], EMPTY.(path := [c] + t[..k]));
    }
  }

  lemma StartShape(t: Text)
    requires NoNul(t) && (t != [] ==> !IsSpace(t[0]))
    ensures var r := Start(t, EMPTY);
      && Shaped(r) && SchemeOk(r.scheme)
      && (r.scheme == [] && r.authority == [] && r.path != [] ==> !IsSpace(r.path[0]))
  {
    hide AfterPath, Path, SecondSlash, Scheme;
    if t != [] {
      if t[0] == COLON {
        PathShape([COLON], t[1..], EMPTY);
      } else if t[0] == SLASH {
        SecondSlashShape([SLASH], t[1..], EMPTY);
      } else if t[0] in PATH_END {
        AfterPathShape(t, EMPTY);
      } else {
        SchemeShape(t[0], t[1..]);
      }
    }
  }

  lemma {:induction false} SkipKeepsNoNul(t: Text)
    requires NoNul(t)
    ensures NoNul(SkipSpaces(t))
  {
    if t != [] && IsSpace(t[0]) {
      SkipKeepsNoNul(t[1..]);
    }
  }

  lemma ParseShape(t: Text)
    ensures var r := Parse(t);
      && Shaped(r) && SchemeOk(r.scheme)
      && (r.scheme == [] && r.authority == [] && r.path != [] ==> !IsSpace(r.path[0]))
  {
    hide Start;
    CutIsFree(t, {0});
    SkipKeepsNoNul(CStr(t));
    StartShape(SkipSpaces(CStr(t)));
  }

  // ---- readings: what a printed part is read as ----

  lemma FragmentReads(f: Text, v: Url)
    requires v.fragment == []
    ensures f != [] ==> FragmentText(f) != [] && FragmentText(f)[0] == HASH && FragmentText(f)[1..] == f
    ensures f != [] ==> FragmentStart(f, v) == v.(fragment := f)
    ensures f == [] ==> FragmentText(f) == [] && v == v.(fragment := f)
  {
    assert f != [] ==> [f[0]] + f[1..] == f;
  }

  lemma Drop(t: Text, k: nat)
    requires k < |t|
    ensures t[k..][1..] == t[k + 1..] && t[k..][0] == t[k]
  {
  }

  lemma FirstAndRest(q: Text, t: Text)
    requires q != []
    ensures q + t != [] && (q + t)[0] == q[0] && (q + t)[1..] == q[1..] + t && [q[0]] + q[1..] == q
  {
  }

  lemma QueryReads(q: Text, f: Text, v: Url)
    requires v.fragment == [] && q != [] && QueryOk(q)
    ensures QueryStart(q + FragmentText(f), v) == v.(query := q, fragment := f)
  {
    hide Free, FragmentText, FragmentStart, Cut;
    FragmentReads(f, v.(query := q));
    CutOf(q[1..], FragmentText(f), {HASH});
    FirstAndRest(q, FragmentText(f));
    var t, k := q[1..] + FragmentText(f), |q[1..]|;
    if f != [] {
      Drop(t, k);
    }
  }

  lemma TailReads(q: Text, f: Text, v: Url)
    requires v.query == [] && v.fragment == [] && QueryOk(q)
    ensures var t := QueryText(q) + FragmentText(f);
      && (t == [] || t[0] in PATH_END)
      && AfterPath(t, v) == v.(query := q, fragment := f)
  {
    hide QueryStart, FragmentStart, FragmentText, Free;
    FragmentReads(f, v);
    if q == [] {
      assert QueryText(q) + FragmentText(f) == FragmentText(f);
    } else {
      FirstAndRest([QUESTION] + q, FragmentText(f));
      assert ([QUESTION] + q)[1..] == q;
      QueryReads(q, f, v);
    }
  }

  /** A path is read back if and only if it holds no end of a path. */
  lemma PathReads(buffer: Text, p: Text, q: Text, f: Text, v: Url)
    requires v.query == [] && v.fragment == [] && QueryOk(q)
    ensures var r := Path(buffer, p + (QueryText(q) + FragmentText(f)), v);
      && (Free(p, PATH_END) ==> r == v.(path := buffer + p, query := q, fragment := f))
      && (!Free(p, PATH_END) ==> r.path != buffer + p)
  {
    hide AfterPath, QueryText, FragmentText;
    var t := QueryText(q) + FragmentText(f);
    TailReads(q, f, v.(path := buffer + p));
    if Free(p, PATH_END) {
      CutOf(p, t, PATH_END);
    } else {
      CutInside(p, t, PATH_END);
    }
  }

  lemma AuthorityReads(c: byte, a: Text, p: Text, q: Text, f: Text, v: Url)
    requires v.path == [] && v.query == [] && v.fragment == [] && QueryOk(q) && Free(a, AUTHORITY_END)
    ensures var r := Authority([c], a + (p + (QueryText(q) + FragmentText(f))), v);
      r == v.(authority := [c] + a, path := p, query := q, fragment := f) <==> PathOk(p)
  {
    hide AfterPath, Path, QueryText, FragmentText;
    var tail := QueryText(q) + FragmentText(f);
    var rest := p + tail;
    var w := v.(authority := [c] + a);
    TailReads(q, f, w);
    if p == [] {
      assert rest == tail;
      CutOf(a, rest, AUTHORITY_END);
    } else if p[0] in AUTHORITY_END {
      CutOf(a, rest, AUTHORITY_END);
      if p[0] == SLASH {
        assert (a + rest)[|a| + 1..] == p[1..] + tail;
        PathReads([SLASH], p[1..], q, f, w);
        assert [SLASH] + p[1..] == p;
      }
    } else {
      CutBeyond(a, rest, AUTHORITY_END);
    }
  }

  lemma CutBeyond(a: Text, b: Text, stop: set<byte>)
    requires Free(a, stop) && b != [] && b[0] !in stop
    ensures Cut(a + b, stop) > |a|
  {
    assert forall i :: 0 <= i <= |a| ==> (a + b)[i] == if i < |a| then a[i] else b[0];
  }

  /** Behind a scheme: an authority, or a path at once. */
  lemma AfterSchemeReads(u: Url, v: Url)
    requires v == Url(u.scheme, [], [], [], []) && AuthorityOk(u.authority) && QueryOk(u.query)
    ensures AfterScheme(AuthorityText(u.authority) + (u.path + Tail(u)), v) == u <==>
      if u.authority != [] then PathOk(u.path) else OpaquePathOk(u.path, Tail(u))
  {
    hide AfterPath, Path, Authority, QueryText, FragmentText;
    var t := AuthorityText(u.authority) + (u.path + Tail(u));
    if u.authority != [] {
      AfterTwoSlashes(u, v);
    } else {
      assert t == u.path + Tail(u);
      if u.path == [] {
        assert t == Tail(u);
        TailReads(u.query, u.fragment, v);
        NoTail(u);
        if t != [] {
          PathShapeOnly([t[0]], t[1..], v);
        }
      } else if u.path[0] == SLASH {
        SlashIsLost(t[1..], v);
      } else {
        assert t[1..] == u.path[1..] + Tail(u);
        PathReads([u.path[0]], u.path[1..], u.query, u.fragment, v);
        assert [u.path[0]] + u.path[1..] == u.path;
      }
    }
  }

  lemma NoTail(u: Url)
    ensures Tail(u) == [] <==> u.query == [] && u.fragment == []
    ensures Tail(u) != [] ==> Tail(u)[0] in PATH_END
  {
  }

  lemma PathShapeOnly(buffer: Text, t: Text, u: Url)
    ensures buffer != [] ==> Path(buffer, t, u).path != [] && Path(buffer, t, u).path[0] == buffer[0]
  {
    hide AfterPath;
  }

  /** The slash that begins a path directly behind a scheme does not come back. */
  lemma SlashIsLost(t: Text, u: Url)
    requires u.path == [] && u.authority == []
    ensures var r := SecondSlash([], t, u); r.authority != [] || r.path == [] || r.path[0] != SLASH
  {
    hide Path, Authority;
    if t != [] && t[0] == SLASH {
      if |t| > 1 {
        AuthorityNotEmpty(t[1], t[1..][1..], u);
      }
    } else if t != [] {
      PathShapeOnly([t[0]], t[1..], u);
      assert [] + [t[0]] == [t[0]];
    }
  }

  lemma AuthorityNotEmpty(c: byte, t: Text, u: Url)
    ensures Authority([c], t, u).authority != []
  {
    hide AfterPath, Path;
  }

  lemma AfterTwoSlashes(u: Url, v: Url)
    requires v == Url(u.scheme, [], [], [], []) && u.authority != [] && AuthorityOk(u.authority) && QueryOk(u.query)
    ensures var t := AuthorityText(u.authority) + (u.path + Tail(u));
      && t != [] && t[0] == SLASH
      && (SecondSlash([], t[1..], v) == u <==> PathOk(u.path))
      && (SecondSlash([SLASH], t[1..], v) == u <==> PathOk(u.path))
  {
    hide Authority, QueryText, FragmentText, PathOk;
    var t := AuthorityText(u.authority) + (u.path + Tail(u));
    var a, rest := u.authority, u.path + Tail(u);
    assert t[1..] == [SLASH] + (a + rest) && t[1..][1..] == a + rest && (a + rest)[1..] == a[1..] + rest;
    AuthorityReads(a[0], a[1..], u.path, u.query, u.fragment, v);
    assert [a[0]] + a[1..] == a;
  }

  /** A path on its own. */
  lemma BareReads(u: Url)
    requires u.scheme == [] && u.authority == [] && QueryOk(u.query) && (u.path != [] ==> !IsSpace(u.path[0]))
    ensures Start(u.path + Tail(u), EMPTY) == u <==> BarePathOk(u.path, Tail(u))
  {
    hide AfterPath, Path, SecondSlash, Scheme, QueryText, FragmentText;
    var t := u.path + Tail(u);
    NoTail(u);
    if u.path == [] {
      assert t == Tail(u);
      TailReads(u.query, u.fragment, EMPTY);
    } else {
      assert t[1..] == u.path[1..] + Tail(u) && [u.path[0]] + u.path[1..] == u.path;
      if u.path[0] == COLON {
        PathReads([COLON], u.path[1..], u.query, u.fragment, EMPTY);
      } else if u.path[0] == SLASH {
        BareSlashReads(u);
      } else if u.path[0] !in PATH_END {
        BareWordReads(u);
      }
    }
  }

  lemma BareSlashReads(u: Url)
    requires u.scheme == [] && u.authority == [] && QueryOk(u.query) && u.path != [] && u.path[0] == SLASH
    ensures SecondSlash([SLASH], u.path[1..] + Tail(u), EMPTY) == u <==> BarePathOk(u.path, Tail(u))
  {
    hide AfterPath, Path, Authority, QueryText, FragmentText;
    var t := u.path[1..] + Tail(u);
    NoTail(u);
    if |u.path| == 1 {
      assert t == Tail(u);
      if t != [] {
        PathLonger([SLASH, t[0]], t[1..], EMPTY);
        assert [SLASH] + [t[0]] == [SLASH, t[0]];
      }
    } else if u.path[1] == SLASH {
      if |t| > 1 {
        AuthorityNotEmpty(t[1], t[1..][1..], EMPTY);
      }
    } else {
      assert t[1..] == u.path[2..] + Tail(u);
      PathReads([SLASH] + [u.path[1]], u.path[2..], u.query, u.fragment, EMPTY);
      assert ([SLASH] + [u.path[1]]) + u.path[2..] == u.path;
    }
  }

  lemma PathLonger(buffer: Text, t: Text, u: Url)
    ensures |Path(buffer, t, u).path| >= |buffer|
  {
    hide AfterPath;
  }

  lemma BareWordReads(u: Url)
    requires u.scheme == [] && u.authority == [] && QueryOk(u.query) && u.path != []
    requires u.path[0] != SLASH && u.path[0] !in SCHEME_END
    ensures Scheme([u.path[0]], u.path[1..] + Tail(u), EMPTY) == u <==> Free(u.path, SCHEME_END)
  {
    hide AfterPath, AfterScheme, QueryText, FragmentText;
    var c, p, tail := u.path[0], u.path[1..], Tail(u);
    assert u.path == [c] + p;
    NoTail(u);
    TailReads(u.query, u.fragment, EMPTY.(path := u.path));
    assert Free(u.path, SCHEME_END) <==> Free(p, SCHEME_END) by {
      assert Free(p, SCHEME_END) ==> forall i :: 0 < i < |u.path| ==> u.path[i] == p[i - 1];
      assert Free(u.path, SCHEME_END) ==> forall i :: 0 <= i < |p| ==> p[i] == u.path[i + 1];
    }
    if Free(p, SCHEME_END) {
      CutOf(p, tail, SCHEME_END);
    } else {
      CutInside(p, tail, SCHEME_END);
    }
  }

  /** A scheme is read up to its colon. */
  lemma SchemeReads(s: Text, rest: Text)
    requires s != [] && SchemeOk(s)
    ensures Start(SchemeText(s) + rest, EMPTY) == AfterScheme(rest, EMPTY.(scheme := s))
  {
    hide AfterScheme, AfterPath, Path;
    var t := SchemeText(s) + rest;
    assert t[1..] == s[1..] + ([COLON] + rest);
    CutOf(s[1..], [COLON] + rest, SCHEME_END);
    assert t[1..][|s[1..]| + 1..] == rest && [s[0]] + s[1..] == s;
  }

  // ---- the round trip ----

  lemma {:induction false} NoCut(t: Text)
    requires NoNul(t)
    ensures CStr(t) == t
  {
    CutOf(t, [], {0});
    assert t + [] == t;
  }

  lemma PrintedNoNul(u: Url)
    requires NulFree(u)
    ensures NoNul(ToString(u))
  {
  }

  /** Parsing the printed URL yields the same five components if and only if they are canonical. */
  lemma RoundTrip(u: Url)
    ensures Parse(ToString(u)) == u <==> Canonical(u)
  {
    hide Start, ToString, CStr, AfterScheme;
    ParseShape(ToString(u));
    if Shaped(u) && SchemeOk(u.scheme) {
      PrintedNoNul(u);
      NoCut(ToString(u));
      if u.scheme != [] {
        WithScheme(u);
      } else if u.authority != [] {
        WithoutScheme(u);
      } else if u.path == [] || !IsSpace(u.path[0]) {
        OnItsOwn(u);
      }
    }
  }

  lemma WithScheme(u: Url)
    requires Shaped(u) && SchemeOk(u.scheme) && u.scheme != []
    ensures SkipSpaces(ToString(u)) == ToString(u)
    ensures Start(ToString(u), EMPTY) == u <==>
      if u.authority != [] then PathOk(u.path) else OpaquePathOk(u.path, Tail(u))
  {
    hide Start, AfterScheme, Tail, AuthorityText;
    SchemeReads(u.scheme, AuthorityText(u.authority) + (u.path + Tail(u)));
    AfterSchemeReads(u, EMPTY.(scheme := u.scheme));
  }

  lemma WithoutScheme(u: Url)
    requires Shaped(u) && u.scheme == [] && u.authority != []
    ensures SkipSpaces(ToString(u)) == ToString(u)
    ensures Start(ToString(u), EMPTY) == u <==> PathOk(u.path)
  {
    hide SecondSlash, AfterPath, Path, Scheme, Tail, PathOk;
    AfterTwoSlashes(u, EMPTY);
    assert ToString(u) == AuthorityText(u.authority) + (u.path + Tail(u));
  }

  lemma OnItsOwn(u: Url)
    requires Shaped(u) && u.scheme == [] && u.authority == [] && (u.path != [] ==> !IsSpace(u.path[0]))
    ensures SkipSpaces(ToString(u)) == ToString(u)
    ensures Start(ToString(u), EMPTY) == u <==> BarePathOk(u.path, Tail(u))
  {
    hide Start, BarePathOk;
    BareReads(u);
    NoTail(u);
    assert ToString(u) == u.path + Tail(u);
  }
}
