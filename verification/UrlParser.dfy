/** The parsing constructor: a loop over the characters and a state number. */
module UrlParser {
  import opened Octets
  import opened Url

  /** What the machine still makes of the text that is left, state by state. */
  ghost function Meaning(state: int, buffer: Text, t: Text, u: Url): Url {
    if state == 0 then Start(t, u)
    else if state == 1 then Scheme(buffer, t, u)
    else if state == 2 then AfterScheme(t, u)
    else if state == 3 then SecondSlash(buffer, t, u)
    else if state == 4 then AuthorityStart(t, u)
    else if state == 5 then Authority(buffer, t, u)
    else if state == 7 then Path(buffer, t, u)
    else if state == 8 then QueryStart(t, u)
    else if state == 9 then Query(buffer, t, u)
    else if state == 10 then FragmentStart(t, u)
    else if state == 11 then Fragment(buffer, t, u)
    else u
  }

  predicate IsState(state: int) { 0 <= state <= 11 && state != 6 }

  lemma CutStep(t: Text, stop: set<byte>)
    requires t != []
    ensures t[0] in stop ==> Cut(t, stop) == 0 && t[..0] == [] && t[0..] == t
    ensures t[0] !in stop ==> Cut(t, stop) == 1 + Cut(t[1..], stop)
  {
  }

  /** One character kept: the same cut, one further. */
  lemma Kept(buffer: Text, t: Text, stop: set<byte>)
    requires t != [] && t[0] !in stop
    ensures var k := Cut(t[1..], stop);
      && Cut(t, stop) == k + 1 && (k == |t[1..]| <==> k + 1 == |t|)
      && (buffer + [t[0]]) + t[1..][..k] == buffer + t[..k + 1]
      && t[1..][k..] == t[k + 1..]
      && (k < |t[1..]| ==> t[1..][k] == t[k + 1] && t[1..][k + 1..] == t[k + 2..])
  {
    Slices(buffer, t, Cut(t[1..], stop));
    hide Cut;
    CutStep(t, stop);
  }

  lemma Slices<T>(buffer: seq<T>, t: seq<T>, k: nat)
    requires k < |t|
    ensures (buffer + [t[0]]) + t[1..][..k] == buffer + t[..k + 1] && t[1..][k..] == t[k + 1..]
    ensures k + 1 < |t| ==> t[1..][k] == t[k + 1] && t[1..][k + 1..] == t[k + 2..]
  {
    assert t[..k + 1] == [t[0]] + t[1..][..k];
  }

  class UrlParser {
    var scheme: Text
    var authority: Text
    var path: Text
    var query: Text
    var fragment: Text

    function Value(): Url
      reads this
    {
      Url(scheme, authority, path, query, fragment)
    }

    /** Parses the text up to its end or its first NUL. */
    constructor (url: Text)
      ensures Value() == Parse(url)
    {
      scheme, authority, path, query, fragment := [], [], [], [], [];
      new;
      Run(url);
    }

    method Run(url: Text)
      requires Value() == EMPTY
      modifies this
      ensures Value() == Parse(url)
    {
      hide Meaning, Start, Cut;
      ghost var t := CStr(url);
      CutEnds(url);
      var p := SkipLeadingSpaces(url);
      var state, buffer := 0, [];
      MeaningEnds(buffer, t[p..], Value());
      while state >= 0
        invariant 0 <= p <= |t| && (state < 0 || IsState(state)) && (state == 2 ==> buffer == [])
        invariant state >= 0 ==> Meaning(state, buffer, t[p..], Value()) == Parse(url)
        invariant state < 0 ==> Value() == Parse(url)
        decreases state >= 0, |t| - p
      {
        ghost var rest := t[p..];
        var c := Here(url, p);
        if c == 0 {
          assert rest == [];
          state := AtEnd(state, buffer);
        } else {
          assert rest[0] == c && rest[1..] == t[p + 1..];
          state, buffer := Step(state, buffer, c, rest);
          p := p + 1;
        }
      }
    }

    method SkipLeadingSpaces(url: Text) returns (p: nat)
      ensures p <= |CStr(url)| && CStr(url)[p..] == SkipSpaces(CStr(url))
    {
      ghost var t := CStr(url);
      CutEnds(url);
      p := 0;
      assert t[0..] == t;
      while Here(url, p) != 0 && IsSpace(Here(url, p))
        invariant 0 <= p <= |t| && SkipSpaces(t[p..]) == SkipSpaces(t)
        decreases |t| - p
      {
        assert t[p..][1..] == t[p + 1..];
        p := p + 1;
      }
    }

    /** The branch of each state for the end of the text. */
    method AtEnd(state: int, buffer: Text) returns (next: int)
      requires IsState(state)
      modifies this
      ensures next == -1 && Value() == old(Meaning(state, buffer, [], Value()))
    {
      hide Cut;
      ghost var none: Text := [];
      assert none[0..] == none && none[..0] == none && buffer + none == buffer;
      NoText();
      next := -1;
      match state
      case 1 => path := buffer;
      case 3 => path := buffer;
      case 5 => authority := buffer;
      case 7 => path := buffer;
      case 9 => query := buffer;
      case 11 => fragment := buffer;
      case _ =>
    }

    /** The other branches: a character ends a component or is kept. */
    method Step(state: int, buffer: Text, c: byte, ghost t: Text) returns (next: int, kept: Text)
      requires IsState(state) && t != [] && t[0] == c && c != 0 && (state == 2 ==> buffer == [])
      modifies this
      ensures IsState(next) && (next == 2 ==> kept == [])
      ensures Meaning(next, kept, t[1..], Value()) == old(Meaning(state, buffer, t, Value()))
    {
      hide Fragment, Query, Path, Authority, SecondSlash, AfterScheme, Scheme;
      kept := buffer;
      match state
      case 0 =>
        if c == COLON {
          next, kept := 7, [c];
        } else if c == SLASH {
          next, kept := 3, [c];
        } else if c == QUESTION {
          next := 8;
        } else if c == HASH {
          next := 10;
        } else {
          next, kept := 1, [c];
        }
      case 1 => next, kept := StepScheme(buffer, c, t);
      case 2 =>
        AfterSchemeStep(t, Value());
        if c == SLASH {
          next := 3;
        } else {
          next, kept := 7, [c];
        }
      case 3 =>
        SecondSlashStep(buffer, t, Value());
        if c == SLASH {
          next := 4;
        } else {
          next, kept := 7, buffer + [c];
        }
      case 4 => next, kept := 5, [c];
      case 5 => next, kept := StepAuthority(buffer, c, t);
      case 7 => next, kept := StepPath(buffer, c, t);
      case 8 => next, kept := 9, [c];
      case 9 => next, kept := StepQuery(buffer, c, t);
      case 10 => next, kept := 11, [c];
      case _ =>
        FragmentStep(buffer, t, Value());
        next, kept := 11, buffer + [c];
    }

    method StepScheme(buffer: Text, c: byte, ghost t: Text) returns (next: int, kept: Text)
      requires t != [] && t[0] == c
      modifies this
      ensures IsState(next) && (next == 2 ==> kept == [])
      ensures Meaning(next, kept, t[1..], Value()) == old(Meaning(1, buffer, t, Value()))
    {
      hide QueryStart, FragmentStart, AfterScheme, Cut;
      kept := buffer;
      CutStep(t, SCHEME_END);
      assert buffer + [] == buffer;
      if c == COLON {
        scheme := buffer;
        next, kept := 2, [];
      } else if c == QUESTION {
        path := buffer;
        next := 8;
      } else if c == HASH {
        path := buffer;
        next := 10;
      } else {
        Kept(buffer, t, SCHEME_END);
        next, kept := 1, buffer + [c];
      }
    }

    method StepAuthority(buffer: Text, c: byte, ghost t: Text) returns (next: int, kept: Text)
      requires t != [] && t[0] == c
      modifies this
      ensures IsState(next) && next != 2
      ensures Meaning(next, kept, t[1..], Value()) == old(Meaning(5, buffer, t, Value()))
    {
      hide QueryStart, FragmentStart, Path, Cut;
      kept := buffer;
      CutStep(t, AUTHORITY_END);
      assert buffer + [] == buffer;
      if c == SLASH {
        authority := buffer;
        next, kept := 7, [SLASH];
      } else if c == QUESTION {
        authority := buffer;
        next := 8;
      } else if c == HASH {
        authority := buffer;
        next := 10;
      } else {
        Kept(buffer, t, AUTHORITY_END);
        next, kept := 5, buffer + [c];
      }
    }

    method StepPath(buffer: Text, c: byte, ghost t: Text) returns (next: int, kept: Text)
      requires t != [] && t[0] == c
      modifies this
      ensures IsState(next) && next != 2
      ensures Meaning(next, kept, t[1..], Value()) == old(Meaning(7, buffer, t, Value()))
    {
      hide QueryStart, FragmentStart, Cut;
      kept := buffer;
      CutStep(t, PATH_END);
      assert buffer + [] == buffer;
      if c == QUESTION {
        path := buffer;
        next, kept := 8, [];
      } else if c == HASH {
        path := buffer;
        next, kept := 10, [];
      } else {
        Kept(buffer, t, PATH_END);
        next, kept := 7, buffer + [c];
      }
    }

    method StepQuery(buffer: Text, c: byte, ghost t: Text) returns (next: int, kept: Text)
      requires t != [] && t[0] == c
      modifies this
      ensures IsState(next) && next != 2
      ensures Meaning(next, kept, t[1..], Value()) == old(Meaning(9, buffer, t, Value()))
    {
      hide FragmentStart, Cut;
      kept := buffer;
      CutStep(t, {HASH});
      assert buffer + [] == buffer;
      if c == HASH {
        query := buffer;
        next, kept := 10, [];
      } else {
        Kept(buffer, t, {HASH});
        next, kept := 9, buffer + [c];
      }
    }
  }

  lemma AfterSchemeStep(t: Text, u: Url)
    requires t != []
    ensures AfterScheme(t, u) == if t[0] == SLASH then SecondSlash([], t[1..], u) else Path([t[0]], t[1..], u)
  {
  }

  lemma SecondSlashStep(buffer: Text, t: Text, u: Url)
    requires t != []
    ensures SecondSlash(buffer, t, u) ==
      if t[0] == SLASH then AuthorityStart(t[1..], u) else Path(buffer + [t[0]], t[1..], u)
  {
  }

  lemma FragmentStep(buffer: Text, t: Text, u: Url)
    requires t != []
    ensures Fragment(buffer, t, u) == Fragment(buffer + [t[0]], t[1..], u)
  {
    assert (buffer + [t[0]]) + t[1..] == buffer + t;
  }

  /** At the end every component is what the buffer holds. */
  lemma NoText()
    ensures Cut([], PATH_END) == 0 && Cut([], AUTHORITY_END) == 0 && Cut([], SCHEME_END) == 0 && Cut([], {HASH}) == 0
  {
  }

  lemma MeaningEnds(buffer: Text, t: Text, u: Url)
    ensures Meaning(0, buffer, t, u) == Start(t, u)
  {
  }

  /** *p: NUL behind the last character. */
  function Here(url: Text, p: nat): byte { if p < |url| then url[p] else 0 }

  lemma CutEnds(url: Text)
    ensures |CStr(url)| <= |url|
    ensures forall p :: 0 <= p <= |CStr(url)| ==> (Here(url, p) == 0 <==> p == |CStr(url)|)
    ensures forall p :: 0 <= p < |CStr(url)| ==> Here(url, p) == CStr(url)[p]
  {
  }
}
