/** The parts of `pathlib.Path` the program reads, on POSIX path strings:
    `name`, `suffix`, the directory part, and the name `tempfile.mkstemp`
    gives a temporary file created beside a target. Paths are absolute and
    normalised (no trailing '/'), as `rglob` produces them. */
module PyPath {

  predicate NoChar(s: string, c: char) {
    forall i :: 0 <= i < |s| ==> s[i] != c
  }

  /** `Path(p).name`: the final component, i.e. everything after the last '/'. */
  function Name(p: string): (r: string)
    ensures |r| <= |p| && r == p[|p| - |r|..]
    ensures NoChar(r, '/')
    ensures |r| < |p| ==> p[|p| - |r| - 1] == '/'
  {
    p[RFind(p, '/') + 1..]
  }

  /** Everything up to and including the last '/' (empty when there is none). */
  function DirPrefix(p: string): (d: string)
    ensures p == d + Name(p)
    ensures |d| == 0 || d[|d| - 1] == '/'
  {
    p[..|p| - |Name(p)|]
  }

  /** `s.rfind(c)`: the last index holding `c`, or -1. */
  function RFind(s: string, c: char): (i: int)
    ensures -1 <= i < |s|
    ensures i >= 0 ==> s[i] == c
    ensures forall j :: i < j < |s| ==> s[j] != c
  {
    if |s| == 0 then -1
    else if s[|s| - 1] == c then |s| - 1
    else RFind(s[..|s| - 1], c)
  }

  /** The suffix rule applied to one path component: from its last '.', but
      only when that dot is neither the first nor the last character;
      otherwise the empty string. */
  function ComponentSuffix(name: string): (r: string)
    ensures r == "" || (|r| >= 2 && r[0] == '.' && NoChar(r[1..], '.'))
    ensures |r| < |name| || r == ""
    ensures r == name[|name| - |r|..]
  {
    var i := RFind(name, '.');
    if 0 < i < |name| - 1 then name[i..] else ""
  }

  /** `Path(p).suffix`. */
  function Suffix(p: string): (r: string)
    ensures r == "" || (|r| >= 2 && r[0] == '.' && NoChar(r[1..], '.'))
    ensures |r| <= |Name(p)| && (r != "" ==> |r| < |Name(p)|)
    ensures r == Name(p)[|Name(p)| - |r|..]
  {
    ComponentSuffix(Name(p))
  }

  lemma RFindOfJoin(d: string, x: string, c: char)
    requires |d| == 0 || d[|d| - 1] == c
    requires NoChar(x, c)
    ensures RFind(d + x, c) == |d| - 1
  {
    var p := d + x;
    var i := RFind(p, c);
    if |d| > 0 {
      assert p[|d| - 1] == c;
    }
  }

  lemma NoCharAppend(a: string, b: string, c: char)
    requires NoChar(a, c) && NoChar(b, c)
    ensures NoChar(a + b, c)
  {
  }

  lemma NameOfJoin(d: string, x: string)
    requires |d| == 0 || d[|d| - 1] == '/'
    requires NoChar(x, '/')
    ensures Name(d + x) == x
  {
    RFindOfJoin(d, x, '/');
    assert (d + x)[|d|..] == x;
  }

  lemma DirPrefixOfJoin(d: string, x: string)
    requires |d| == 0 || d[|d| - 1] == '/'
    requires NoChar(x, '/')
    ensures DirPrefix(d + x) == d
  {
    NameOfJoin(d, x);
    assert (d + x)[..|d|] == d;
  }

  lemma ComponentSuffixOfJoin(stem: string, ext: string)
    requires |stem| > 0
    requires |ext| >= 2 && ext[0] == '.' && NoChar(ext[1..], '.')
    ensures ComponentSuffix(stem + ext) == ext
  {
    var x := stem + ext;
    assert x == (stem + ['.']) + ext[1..];
    RFindOfJoin(stem + ['.'], ext[1..], '.');
    assert x[|stem|..] == ext;
  }

  /** Building a path from a directory, a stem and an extension and then
      asking for its suffix gives the extension back. */
  lemma SuffixOfJoin(d: string, stem: string, ext: string)
    requires |d| == 0 || d[|d| - 1] == '/'
    requires |stem| > 0 && NoChar(stem, '/')
    requires |ext| >= 2 && ext[0] == '.' && NoChar(ext[1..], '.') && NoChar(ext, '/')
    ensures Suffix(d + stem + ext) == ext
  {
    assert d + stem + ext == d + (stem + ext);
    NoCharAppend(stem, ext, '/');
    NameOfJoin(d, stem + ext);
    ComponentSuffixOfJoin(stem, ext);
  }

  /** A component with no dot at all has the empty suffix. */
  lemma SuffixWithoutDot(d: string, x: string)
    requires |d| == 0 || d[|d| - 1] == '/'
    requires NoChar(x, '/') && NoChar(x, '.')
    ensures Suffix(d + x) == ""
  {
    NameOfJoin(d, x);
    assert x == [] + x;
    RFindOfJoin([], x, '.');
  }

  lemma NoCharPrefix(s: string, k: nat, c: char)
    requires k <= |s| && NoChar(s, c)
    ensures NoChar(s[..k], c)
  {
    forall i | 0 <= i < k ensures s[..k][i] != c {
      assert s[..k][i] == s[i];
    }
  }

  /** Conversely, a non-empty suffix always splits the path into a directory,
      a non-empty stem without '/' and that suffix. */
  lemma SuffixDecomposes(p: string)
    requires Suffix(p) != ""
    ensures var stem := Name(p)[..|Name(p)| - |Suffix(p)|];
            && |stem| > 0 && NoChar(stem, '/')
            && p == DirPrefix(p) + stem + Suffix(p)
  {
    var name := Name(p);
    var sfx := Suffix(p);
    NoCharPrefix(name, |name| - |sfx|, '/');
    SplitAt(p, DirPrefix(p), name, |name| - |sfx|);
  }

  lemma SplitAt(p: string, d: string, name: string, k: nat)
    requires p == d + name && k <= |name|
    ensures p == d + name[..k] + name[k..]
  {
    assert name == name[..k] + name[k..];
  }

  /** The characters `tempfile` draws its random names from. */
  predicate IsTempNameChar(c: char) {
    'a' <= c <= 'z' || '0' <= c <= '9' || c == '_'
  }

  type TempToken = t: string | |t| == 8 && forall i :: 0 <= i < |t| ==> IsTempNameChar(t[i])
    witness "00000000"

  /** The path `tempfile.mkstemp(suffix=Path(p).suffix, dir=Path(p).parent)`
      creates: default prefix "tmp", a random token, the target's suffix. */
  function TempPath(p: string, token: TempToken): string {
    DirPrefix(p) + "tmp" + token + Suffix(p)
  }

  lemma NoCharTail(s: string, k: nat, c: char)
    requires k <= |s| && NoChar(s, c)
    ensures NoChar(s[k..], c)
  {
    forall i | 0 <= i < |s| - k ensures s[k..][i] != c {
      assert s[k..][i] == s[k + i];
    }
  }

  /** A suffix never contains '/': it is taken from the final component. */
  lemma SuffixHasNoSlash(p: string)
    ensures NoChar(Suffix(p), '/')
  {
    var name := Name(p);
    var r := Suffix(p);
    assert r == name[|name| - |r|..];
    assert NoChar(name, '/');
    NoCharTail(name, |name| - |r|, '/');
  }

  lemma TempStemClean(token: TempToken)
    ensures NoChar("tmp" + token, '/') && NoChar("tmp" + token, '.')
  {
    var stem := "tmp" + token;
    forall i | 0 <= i < |stem| ensures stem[i] != '/' && stem[i] != '.' {
      if i >= 3 {
        assert stem[i] == token[i - 3];
      }
    }
  }

  lemma Associate(a: string, b: string, c: string)
    ensures a + b + c == a + (b + c)
  {
  }

  lemma Regroup(a: string, b: string, c: string, e: string)
    ensures a + b + c + e == a + (b + c) + e
  {
  }

  /** A path assembled from a directory, a dot-free stem and a suffix (empty
      or well-formed) has that directory and that suffix. */
  lemma JoinParts(d: string, stem: string, sfx: string)
    requires |d| == 0 || d[|d| - 1] == '/'
    requires |stem| > 0 && NoChar(stem, '/') && NoChar(stem, '.')
    requires sfx == "" || (|sfx| >= 2 && sfx[0] == '.' && NoChar(sfx[1..], '.'))
    requires NoChar(sfx, '/')
    ensures DirPrefix(d + stem + sfx) == d
    ensures Suffix(d + stem + sfx) == sfx
  {
    Associate(d, stem, sfx);
    if sfx == "" {
      assert stem + sfx == stem;
      SuffixWithoutDot(d, stem);
      DirPrefixOfJoin(d, stem);
    } else {
      NoCharAppend(stem, sfx, '/');
      DirPrefixOfJoin(d, stem + sfx);
      SuffixOfJoin(d, stem, sfx);
    }
  }

  /** The temporary file sits in the target's directory and keeps its suffix. */
  lemma TempPathBesideTarget(p: string, token: TempToken)
    ensures DirPrefix(TempPath(p, token)) == DirPrefix(p)
    ensures Suffix(TempPath(p, token)) == Suffix(p)
  {
    TempStemClean(token);
    SuffixHasNoSlash(p);
    var d := DirPrefix(p);
    var sfx := Suffix(p);
    assert |d| == 0 || d[|d| - 1] == '/';
    Regroup(d, "tmp", token, sfx);
    JoinParts(d, "tmp" + token, sfx);
  }
}
