/** The text of a URL in its own characters, and what the parser makes of the simplest texts. */
module UrlLaws {
  import opened Octets
  import opened Url

  /** to_string: a colon, two slashes, a question mark and a number sign, each only with its component. */
  lemma PrintedUrl(u: Url)
    ensures ToString(u) ==
      (if u.scheme == [] then [] else u.scheme + [0x3A]) +
      ((if u.authority == [] then [] else [0x2F, 0x2F] + u.authority) +
       (u.path +
        ((if u.query == [] then [] else [0x3F] + u.query) + (if u.fragment == [] then [] else [0x23] + u.fragment))))
  {
  }

  /** Spaces in front are skipped, tabs, line and page breaks among them. */
  lemma LeadingSpaceIsSkipped(b: byte, t: Text)
    requires b == 0x20 || b == 0x09 || b == 0x0A || b == 0x0B || b == 0x0C || b == 0x0D
    ensures Parse([b] + t) == Parse(t)
  {
    assert ([b] + t)[1..] == t;
    var k := Cut(t, {0});
    assert Cut([b] + t, {0}) == k + 1;
    assert ([b] + t)[..k + 1] == [b] + t[..k];
    assert ([b] + t[..k])[1..] == t[..k];
  }

  /** A single other character is a path, unless it delimits something. */
  lemma OneCharacter(c: byte)
    requires c !in {0x00, 0x20, 0x09, 0x0A, 0x0B, 0x0C, 0x0D}
    ensures c != 0x3F && c != 0x23 ==> Parse([c]) == Url([], [], [c], [], [])
    ensures c == 0x3F || c == 0x23 ==> Parse([c]) == EMPTY
  {
    var none: Text := [];
    assert [c][1..] == none && [c] + none == [c];
    assert Cut([c], {0}) == 1 && [c][..1] == [c];
    assert SkipSpaces([c]) == [c];
    assert Cut(none, SCHEME_END) == 0 && Cut(none, PATH_END) == 0 && none[..0] == none && none[0..] == none;
  }

  lemma {:induction false} CutAtNul(t: Text, r: Text)
    requires 0 !in t
    ensures Cut(t + ([0] + r), {0}) == |t| == Cut(t, {0})
  {
    if t == [] {
      assert t + ([0] + r) == [0] + r;
    } else {
      assert (t + ([0] + r))[1..] == t[1..] + ([0] + r);
      CutAtNul(t[1..], r);
    }
  }

  /** Nothing behind a NUL is read. */
  lemma NulEndsTheText(t: Text, r: Text)
    requires 0 !in t
    ensures Parse(t + ([0] + r)) == Parse(t)
  {
    CutAtNul(t, r);
    assert (t + ([0] + r))[..|t|] == t && t[..|t|] == t;
  }
}
