/** Image discovery: the `ImageFileInfo` record, its `permissions_str`
    rendering, and `FileFind.find_images`, which walks a directory and keeps
    the regular files whose suffix names a supported image format.

    The recursive walk (`Path.rglob("*")`) is an input: the sequence of
    entries it yields, in order, where an entry is either a path with its
    `stat` data or the point where the walk raised `PermissionError`. */
module Files {
  import opened Wrappers
  import opened PyStr
  import opened PyPath

  /** Metadata snapshot of one image file, taken once at discovery. */
  datatype ImageFileInfo = ImageFileInfo(
    path: string,
    permissions: int,   // mode bits as an integer, e.g. 0o644
    uid: int,
    gid: int,
    size: int
  )

  // ---------------------------------------------------------------------------
  // permissions_str: oct(permissions)[-3:]
  // ---------------------------------------------------------------------------

  predicate IsOctalDigit(c: char) {
    '0' <= c <= '7'
  }

  function OctalDigitValue(c: char): nat
    requires IsOctalDigit(c)
  {
    c as int - '0' as int
  }

  /** Octal digits of `n` without leading zeros, as `oct()` writes them. */
  function OctalDigits(n: nat): (s: string)
    ensures |s| > 0 && (forall i :: 0 <= i < |s| ==> IsOctalDigit(s[i]))
    ensures n > 0 ==> s[0] != '0'
    ensures n < 8 ==> |s| == 1
    ensures 8 <= n < 64 ==> |s| == 2
    ensures 64 <= n < 512 ==> |s| == 3
  {
    if n < 8 then [DigitChar(n)] else OctalDigits(n / 8) + [DigitChar(n % 8)]
  }

  /** Octal digits without a superfluous leading zero. */
  predicate OctalNumeral(t: string) {
    && |t| > 0
    && (forall i :: 0 <= i < |t| ==> IsOctalDigit(t[i]))
    && (|t| > 1 ==> t[0] != '0')
  }

  /** The number a string of octal digits denotes. */
  function OctalValue(t: string): nat
    requires forall i :: 0 <= i < |t| ==> IsOctalDigit(t[i])
  {
    if |t| == 0 then 0 else 8 * OctalValue(t[..|t| - 1]) + OctalDigitValue(t[|t| - 1])
  }

  lemma {:induction false} OctalDigitsValue(n: nat)
    ensures OctalValue(OctalDigits(n)) == n
  {
    var s := OctalDigits(n);
    if n >= 8 {
      OctalDigitsValue(n / 8);
      assert s[..|s| - 1] == OctalDigits(n / 8);
    }
  }

  /** Python's `oct(n)`: the prefix "0o" (with a '-' in front for negatives)
      followed by the magnitude as an octal numeral, which reads back as |n|. */
  function Oct(n: int): (s: string)
    ensures |s| >= 3
    ensures n >= 0 ==> s[..2] == "0o" && OctalNumeral(s[2..]) && OctalValue(s[2..]) == n
    ensures n < 0 ==> s[..3] == "-0o" && OctalNumeral(s[3..]) && OctalValue(s[3..]) == -n
  {
    var m := if n < 0 then -n else n;
    OctalDigitsValue(m);
    if n < 0 then
      var s := "-0o" + OctalDigits(m);
      assert s[3..] == OctalDigits(m);
      s
    else
      var s := "0o" + OctalDigits(m);
      assert s[2..] == OctalDigits(m);
      s
  }

  /** `s[-3:]`: the last three characters, or all of `s` when it is shorter. */
  function LastThree(s: string): string {
    if |s| <= 3 then s else s[|s| - 3..]
  }

  /** `ImageFileInfo.permissions_str`. */
  function PermissionsStr(info: ImageFileInfo): (r: string)
    ensures |r| == 3
  {
    LastThree(Oct(info.permissions))
  }

  /** Reads three octal digits back as a number. */
  function OctalValue3(s: string): int
    requires |s| == 3 && (forall i :: 0 <= i < 3 ==> IsOctalDigit(s[i]))
  {
    64 * OctalDigitValue(s[0]) + 8 * OctalDigitValue(s[1]) + OctalDigitValue(s[2])
  }

  /** For every mode that has an owner digit (64..511) the rendering is the
      three octal digits, and reading them back gives the mode. */
  lemma PermissionsStrRoundTrip(info: ImageFileInfo)
    requires 64 <= info.permissions < 512
    ensures forall i :: 0 <= i < 3 ==> IsOctalDigit(PermissionsStr(info)[i])
    ensures OctalValue3(PermissionsStr(info)) == info.permissions
  {
    var p := info.permissions;
    var d := OctalDigits(p);
    assert d == OctalDigits(p / 8) + [DigitChar(p % 8)];
    assert OctalDigits(p / 8) == OctalDigits(p / 64) + [DigitChar(p / 8 % 8)];
    assert d == [DigitChar(p / 64), DigitChar(p / 8 % 8), DigitChar(p % 8)];
    assert PermissionsStr(info) == d;
  }

  /** Below 0o100 the rendering keeps the 'o' of the "0o" prefix instead of a
      leading zero digit: 0o44 renders as "o44" and 0o4 as "0o4". */
  lemma PermissionsStrBelow64(info: ImageFileInfo)
    requires 0 <= info.permissions < 64
    ensures 8 <= info.permissions ==> PermissionsStr(info)[0] == 'o'
    ensures info.permissions < 8 ==> PermissionsStr(info)[..2] == "0o"
    ensures info.permissions == 0x24 ==> PermissionsStr(info) == "o44"
  {
    var p := info.permissions;
    if 8 <= p {
      assert Oct(p) == "0o" + OctalDigits(p);
    }
    if p == 0x24 {
      assert OctalDigits(p) == OctalDigits(4) + [DigitChar(4)];
    }
  }

  /** The rendering `permissions_str` evidently aims at: always three octal
      digits, zero-padded (`f"{p:03o}"`). */
  function PaddedPermissionsStr(info: ImageFileInfo): (r: string)
    requires 0 <= info.permissions < 512
    ensures |r| == 3 && (forall i :: 0 <= i < 3 ==> IsOctalDigit(r[i]))
  {
    var p := info.permissions;
    [DigitChar(p / 64), DigitChar(p / 8 % 8), DigitChar(p % 8)]
  }

  /** The padded rendering reads back as the mode for every value in 0..511,
      and agrees with `permissions_str` wherever the latter is digits only. */
  lemma PaddedPermissionsRoundTrip(info: ImageFileInfo)
    requires 0 <= info.permissions < 512
    ensures OctalValue3(PaddedPermissionsStr(info)) == info.permissions
    ensures 64 <= info.permissions ==> PaddedPermissionsStr(info) == PermissionsStr(info)
  {
    if 64 <= info.permissions {
      PermissionsStrRoundTrip(info);
      var p := info.permissions;
      assert OctalDigits(p) == OctalDigits(p / 8) + [DigitChar(p % 8)];
      assert OctalDigits(p / 8) == OctalDigits(p / 64) + [DigitChar(p / 8 % 8)];
    }
  }

  // ---------------------------------------------------------------------------
  // Ordering by path (Python str comparison: code point by code point)
  // ---------------------------------------------------------------------------

  /** Lexicographic order stated directly: `a` is a prefix of `b`, or at the
      first position where they differ `a` has the smaller character. */
  predicate Lexicographic(a: string, b: string) {
    || a <= b
    || exists i :: 0 <= i < |a| && i < |b| && a[..i] == b[..i] && a[i] < b[i]
  }

  /** `a <= b` on Python strings, compared character by character. */
  predicate PathLe(a: string, b: string)
    ensures PathLe(a, b) <==> Lexicographic(a, b)
    decreases |a|
  {
    if |a| == 0 then true
    else if |b| == 0 then false
    else if a[0] < b[0] then
      assert a[..0] == b[..0];
      true
    else if a[0] == b[0] then
      PrefixAfterSameHead(a, b);
      PathLe(a[1..], b[1..])
    else
      NotLexicographic(a, b);
      false
  }

  lemma PrefixAfterSameHead(a: string, b: string)
    requires |a| > 0 && |b| > 0 && a[0] == b[0]
    ensures Lexicographic(a, b) <==> Lexicographic(a[1..], b[1..])
  {
    if Lexicographic(a[1..], b[1..]) && !(a[1..] <= b[1..]) {
      var i :| 0 <= i < |a[1..]| && i < |b[1..]| && a[1..][..i] == b[1..][..i] && a[1..][i] < b[1..][i];
      assert a[..i + 1] == [a[0]] + a[1..][..i];
      assert b[..i + 1] == [b[0]] + b[1..][..i];
    }
    if Lexicographic(a, b) && !(a <= b) {
      var i :| 0 <= i < |a| && i < |b| && a[..i] == b[..i] && a[i] < b[i];
      assert i > 0;
      assert a[1..][..i - 1] == a[1..i] == b[1..i] == b[1..][..i - 1];
    }
  }

  lemma NotLexicographic(a: string, b: string)
    requires |a| > 0 && |b| > 0 && a[0] > b[0]
    ensures !Lexicographic(a, b)
  {
    forall i | 0 < i <= |a| && i <= |b|
      ensures a[..i] != b[..i]
    {
      assert a[..i][0] != b[..i][0];
    }
    assert !(a <= b) by {
      assert a[..1] != b[..1];
    }
  }

  lemma {:induction false} PathLeTotal(a: string, b: string)
    ensures PathLe(a, b) || PathLe(b, a)
    decreases |a|
  {
    if |a| > 0 && |b| > 0 && a[0] == b[0] {
      PathLeTotal(a[1..], b[1..]);
    }
  }

  lemma {:induction false} PathLeTransitive(a: string, b: string, c: string)
    requires PathLe(a, b) && PathLe(b, c)
    ensures PathLe(a, c)
    decreases |a|
  {
    if |a| > 0 && a[0] == b[0] && b[0] == c[0] {
      PathLeTransitive(a[1..], b[1..], c[1..]);
    }
  }

  lemma {:induction false} PathLeAntisymmetric(a: string, b: string)
    requires PathLe(a, b) && PathLe(b, a)
    ensures a == b
    decreases |a|
  {
    if |a| > 0 {
      PathLeAntisymmetric(a[1..], b[1..]);
      assert a == [a[0]] + a[1..];
      assert b == [b[0]] + b[1..];
    }
  }

  /** Each entry's path is at most the next one's. */
  predicate SortedByPath(s: seq<ImageFileInfo>) {
    forall i :: 0 < i < |s| ==> PathLe(s[i - 1].path, s[i].path)
  }

  /** Neighbour-wise order is the same as order between any two positions. */
  lemma {:induction false} SortedPairwise(s: seq<ImageFileInfo>, i: nat, j: nat)
    requires SortedByPath(s) && i <= j < |s|
    ensures PathLe(s[i].path, s[j].path)
    decreases j - i
  {
    if i == j {
      PathLeReflexive(s[i].path);
    } else {
      SortedPairwise(s, i, j - 1);
      PathLeTransitive(s[i].path, s[j - 1].path, s[j].path);
    }
  }

  lemma {:induction false} PathLeReflexive(a: string)
    ensures PathLe(a, a)
    decreases |a|
  {
    if |a| > 0 {
      PathLeReflexive(a[1..]);
    }
  }

  function InsertByPath(x: ImageFileInfo, s: seq<ImageFileInfo>): (r: seq<ImageFileInfo>)
    requires SortedByPath(s)
    ensures SortedByPath(r)
    ensures multiset(r) == multiset(s) + multiset{x}
    ensures |r| > 0 && (r[0] == x || (|s| > 0 && r[0] == s[0]))
  {
    if |s| == 0 then [x]
    else if PathLe(x.path, s[0].path) then [x] + s
    else
      PathLeTotal(x.path, s[0].path);
      var t := InsertByPath(x, s[1..]);
      assert s == [s[0]] + s[1..];
      [s[0]] + t
  }

  /** `sorted(infos, key=lambda x: x.path)`. */
  function SortByPath(s: seq<ImageFileInfo>): (r: seq<ImageFileInfo>)
    ensures SortedByPath(r)
    ensures multiset(r) == multiset(s)
  {
    if |s| == 0 then []
    else
      assert s == [s[0]] + s[1..];
      InsertByPath(s[0], SortByPath(s[1..]))
  }

  // ---------------------------------------------------------------------------
  // find_images
  // ---------------------------------------------------------------------------

  /** `FileFind.SUPPORTED_EXTENSIONS`. */
  const SupportedExtensions: set<string> := {".jpg", ".jpeg", ".bmp", ".tiff", ".tif", ".png"}

  /** One step of the recursive walk: a path with what `is_file()` and
      `stat()` report for it, or the `PermissionError` the walk raised there. */
  datatype WalkEntry =
    | Entry(path: string, isFile: bool, mode: nat, uid: nat, gid: nat, size: nat)
    | Denied(reason: string)

  /** What the working directory turns out to be. */
  datatype RootState = Missing | NotADirectory | Directory(walk: seq<WalkEntry>)

  /** The exceptions `find_images` raises. */
  datatype FindError =
    | DirectoryNotFound(dir: string)     // FileNotFoundError
    | NotADirectoryError(dir: string)    // NotADirectoryError
    | ScanDenied(reason: string)         // PermissionError

  /** A regular file whose lower-cased suffix is a supported extension. */
  predicate IsImage(e: WalkEntry)
    ensures IsImage(e) ==> e.Entry? && e.isFile && 4 <= |Suffix(e.path)| <= 5 && Suffix(e.path)[0] == '.'
  {
    e.Entry? && e.isFile && Supported(Suffix(e.path))
  }

  /** `x.lower() in SUPPORTED_EXTENSIONS`: only a dot and three or four more
      characters can match. */
  predicate Supported(x: string)
    ensures Supported(x) ==> 4 <= |x| <= 5 && x[0] == '.'
  {
    var l := Lower(x);
    if l in SupportedExtensions then
      assert l[0] == '.' && 4 <= |l| <= 5 by {
        ExtensionShapes(l);
      }
      true
    else false
  }

  lemma ExtensionShapes(l: string)
    requires l in SupportedExtensions
    ensures |l| > 0 && l[0] == '.' && 4 <= |l| <= 5
  {
    if l == ".jpg" || l == ".bmp" || l == ".tif" || l == ".png" {
      assert |l| == 4 && l[0] == '.';
    } else {
      assert l == ".jpeg" || l == ".tiff";
      assert |l| == 5 && l[0] == '.';
    }
  }

  /** The filter, stated on a path built from a directory, a stem and an
      extension: a regular file is kept exactly when its lower-cased extension
      is supported, whatever the case it is written in; a directory never is,
      however it is named. */
  lemma ImageFilterByExtension(d: string, stem: string, ext: string, mode: nat, uid: nat, gid: nat, size: nat)
    requires |d| == 0 || d[|d| - 1] == '/'
    requires |stem| > 0 && NoChar(stem, '/')
    requires |ext| >= 2 && ext[0] == '.' && NoChar(ext[1..], '.') && NoChar(ext, '/')
    ensures IsImage(Entry(d + stem + ext, true, mode, uid, gid, size)) <==> Lower(ext) in SupportedExtensions
    ensures !IsImage(Entry(d + stem + ext, false, mode, uid, gid, size))
  {
    SuffixOfJoin(d, stem, ext);
    assert IsImage(Entry(d + stem + ext, true, mode, uid, gid, size)) <==> Supported(ext);
  }

  function Pow2(k: nat): (p: nat)
    ensures p >= 1
  {
    if k == 0 then 1 else 2 * Pow2(k - 1)
  }

  /** `n & (2**k - 1)`, bit by bit: the lowest `k` binary digits of `n`. */
  function LowBits(n: nat, k: nat): nat {
    if k == 0 then 0 else n % 2 + 2 * LowBits(n / 2, k - 1)
  }

  /** `n >> k`. */
  function HighBits(n: nat, k: nat): nat {
    if k == 0 then n else HighBits(n / 2, k - 1)
  }

  /** Every number is its high bits shifted up plus its low bits. */
  lemma {:induction false} BitsSplit(n: nat, k: nat)
    ensures LowBits(n, k) < Pow2(k)
    ensures n == Pow2(k) * HighBits(n, k) + LowBits(n, k)
  {
    if k > 0 {
      BitsSplit(n / 2, k - 1);
      var p, h := Pow2(k - 1), HighBits(n / 2, k - 1);
      assert 2 * (p * h) == (2 * p) * h;
    }
  }

  lemma NineBits()
    ensures Pow2(9) == 512
  {
    assert Pow2(3) == 8;
    assert Pow2(6) == 64;
  }

  /** `n & 0o777` is `n` modulo 512. */
  lemma MaskIsRemainder(n: nat)
    ensures LowBits(n, 9) == n % 512
  {
    BitsSplit(n, 9);
    NineBits();
  }

  /** The record built for a selected entry: the mode masked with `0o777`
      (its nine permission bits), everything else copied. */
  function ToInfo(e: WalkEntry): (info: ImageFileInfo)
    requires e.Entry?
    ensures info.path == e.path && info.uid == e.uid && info.gid == e.gid && info.size == e.size
    ensures info.permissions == LowBits(e.mode, 9) && 0 <= info.permissions < 512
  {
    MaskIsRemainder(e.mode);
    ImageFileInfo(e.path, e.mode % 512, e.uid, e.gid, e.size)
  }

  /** The file-type bits and the set-id and sticky bits above the nine
      permission bits are dropped: a regular file's `0o100644` records
      `0o644`. */
  lemma MaskDropsTypeBits(path: string, isFile: bool, high: nat, p: nat, uid: nat, gid: nat, size: nat)
    requires p < 512
    ensures ToInfo(Entry(path, isFile, 512 * high + p, uid, gid, size)).permissions == p
  {
    var m := 512 * high + p;
    assert m % 512 == p by {
      assert m == 512 * (m / 512) + m % 512;
    }
  }

  predicate NoDenial(walk: seq<WalkEntry>) {
    forall i :: 0 <= i < |walk| ==> walk[i].Entry?
  }

  /** Two entries of the walk never name the same path. */
  predicate DistinctEntryPaths(walk: seq<WalkEntry>) {
    forall i, j :: 0 <= i < j < |walk| && walk[i].Entry? && walk[j].Entry? ==> walk[i].path != walk[j].path
  }

  predicate DistinctPaths(s: seq<ImageFileInfo>) {
    forall i, j :: 0 <= i < j < |s| ==> s[i].path != s[j].path
  }

  /** The body of the `for` loop over the walk: keep the entries `keep`
      accepts (the images, in `find_images`) in walk order, or stop at the
      first `PermissionError`. The lemmas below hold for every filter. */
  function Collect(walk: seq<WalkEntry>, keep: WalkEntry -> bool): (r: Result<seq<ImageFileInfo>, FindError>)
    ensures r.Success? <==> NoDenial(walk)
    ensures r.Failure? ==> r.error.ScanDenied?
    ensures r.Failure? ==> exists i :: 0 <= i < |walk| && walk[i] == Denied(r.error.reason)
  {
    if |walk| == 0 then Success([])
    else
      var e := walk[0];
      if e.Denied? then Failure(ScanDenied(e.reason))
      else
        var rest := Collect(walk[1..], keep);
        if rest.Failure? then rest
        else if keep(e) then Success([ToInfo(e)] + rest.value)
        else Success(rest.value)
  }

  /** Some entry of the walk is kept and gives the record `x`. */
  predicate Selects(walk: seq<WalkEntry>, keep: WalkEntry -> bool, x: ImageFileInfo) {
    exists i :: 0 <= i < |walk| && walk[i].Entry? && keep(walk[i]) && ToInfo(walk[i]) == x
  }

  lemma SelectsTail(walk: seq<WalkEntry>, keep: WalkEntry -> bool, x: ImageFileInfo)
    requires |walk| > 0
    ensures Selects(walk, keep, x) <==> (walk[0].Entry? && keep(walk[0]) && ToInfo(walk[0]) == x) || Selects(walk[1..], keep, x)
  {
    if Selects(walk, keep, x) {
      SelectsSplits(walk, keep, x);
    }
    if (walk[0].Entry? && keep(walk[0]) && ToInfo(walk[0]) == x) || Selects(walk[1..], keep, x) {
      SelectsJoins(walk, keep, x);
    }
  }

  lemma SelectsSplits(walk: seq<WalkEntry>, keep: WalkEntry -> bool, x: ImageFileInfo)
    requires |walk| > 0 && Selects(walk, keep, x)
    ensures (walk[0].Entry? && keep(walk[0]) && ToInfo(walk[0]) == x) || Selects(walk[1..], keep, x)
  {
    var i :| 0 <= i < |walk| && walk[i].Entry? && keep(walk[i]) && ToInfo(walk[i]) == x;
    if i > 0 {
      var tail := walk[1..];
      assert tail[i - 1] == walk[i];
    }
  }

  lemma SelectsJoins(walk: seq<WalkEntry>, keep: WalkEntry -> bool, x: ImageFileInfo)
    requires |walk| > 0
    requires (walk[0].Entry? && keep(walk[0]) && ToInfo(walk[0]) == x) || Selects(walk[1..], keep, x)
    ensures Selects(walk, keep, x)
  {
    if !(walk[0].Entry? && keep(walk[0]) && ToInfo(walk[0]) == x) {
      var tail := walk[1..];
      var i :| 0 <= i < |tail| && tail[i].Entry? && keep(tail[i]) && ToInfo(tail[i]) == x;
      assert walk[i + 1] == tail[i];
    }
  }

  /** A successful walk yields exactly the images it passed over. */
  lemma {:induction false} CollectMembers(walk: seq<WalkEntry>, keep: WalkEntry -> bool, x: ImageFileInfo)
    requires NoDenial(walk)
    ensures x in Collect(walk, keep).value <==> Selects(walk, keep, x)
    decreases |walk|
  {
    if |walk| > 0 {
      assert NoDenial(walk[1..]) by {
        forall i | 0 <= i < |walk[1..]| ensures walk[1..][i].Entry? {
          assert walk[1..][i] == walk[i + 1];
        }
      }
      CollectMembers(walk[1..], keep, x);
      SelectsTail(walk, keep, x);
    }
  }

  lemma TailKeepsWalkFacts(walk: seq<WalkEntry>)
    requires |walk| > 0 && NoDenial(walk) && DistinctEntryPaths(walk)
    ensures NoDenial(walk[1..]) && DistinctEntryPaths(walk[1..])
  {
    var tail := walk[1..];
    forall i | 0 <= i < |tail| ensures tail[i].Entry? {
      assert tail[i] == walk[i + 1];
    }
    forall i, j | 0 <= i < j < |tail| && tail[i].Entry? && tail[j].Entry?
      ensures tail[i].path != tail[j].path
    {
      assert tail[i] == walk[i + 1] && tail[j] == walk[j + 1];
    }
  }

  lemma HeadPathIsFresh(walk: seq<WalkEntry>, keep: WalkEntry -> bool)
    requires |walk| > 0 && NoDenial(walk) && DistinctEntryPaths(walk)
    ensures forall x :: x in Collect(walk[1..], keep).value ==> x.path != walk[0].path
  {
    var tail := walk[1..];
    TailKeepsWalkFacts(walk);
    forall x | x in Collect(tail, keep).value ensures x.path != walk[0].path {
      CollectMembers(tail, keep, x);
      var i :| 0 <= i < |tail| && tail[i].Entry? && keep(tail[i]) && ToInfo(tail[i]) == x;
      assert tail[i] == walk[i + 1];
    }
  }

  lemma ConsDistinct(x: ImageFileInfo, rest: seq<ImageFileInfo>)
    requires DistinctPaths(rest)
    requires forall y :: y in rest ==> y.path != x.path
    ensures DistinctPaths([x] + rest)
  {
    var r := [x] + rest;
    forall i, j | 0 <= i < j < |r| ensures r[i].path != r[j].path {
      assert r[j] == rest[j - 1];
      if i > 0 {
        assert r[i] == rest[i - 1];
      }
    }
  }

  /** A walk that never repeats a path yields records with distinct paths. */
  lemma {:induction false} CollectDistinct(walk: seq<WalkEntry>, keep: WalkEntry -> bool)
    requires NoDenial(walk) && DistinctEntryPaths(walk)
    ensures DistinctPaths(Collect(walk, keep).value)
    decreases |walk|
  {
    if |walk| > 0 {
      TailKeepsWalkFacts(walk);
      CollectDistinct(walk[1..], keep);
      if keep(walk[0]) {
        HeadPathIsFresh(walk, keep);
        ConsDistinct(ToInfo(walk[0]), Collect(walk[1..], keep).value);
      }
    }
  }

  /** `FileFind(wrk_dir).find_images()` against the given state of `wrk_dir`. */
  function FindImages(wrkDir: string, root: RootState): (r: Result<seq<ImageFileInfo>, FindError>)
    ensures root.Missing? ==> r == Failure(DirectoryNotFound(wrkDir))
    ensures root.NotADirectory? ==> r == Failure(NotADirectoryError(wrkDir))
    ensures root.Directory? ==> (r.Success? <==> NoDenial(root.walk))
    ensures root.Directory? && r.Failure? ==>
              r.error.ScanDenied? && exists i :: 0 <= i < |root.walk| && root.walk[i] == Denied(r.error.reason)
    ensures r.Success? ==> SortedByPath(r.value)
    ensures r.Success? ==> forall x :: x in r.value <==> Selects(root.walk, IsImage, x)
    ensures r.Success? ==> forall x :: x in r.value ==> 0 <= x.permissions < 512
  {
    match root
    case Missing => Failure(DirectoryNotFound(wrkDir))
    case NotADirectory => Failure(NotADirectoryError(wrkDir))
    case Directory(walk) =>
      var found :- Collect(walk, IsImage);
      var sorted := SortByPath(found);
      assert forall x :: x in sorted <==> Selects(walk, IsImage, x) by {
        forall x ensures x in sorted <==> Selects(walk, IsImage, x) {
          assert x in multiset(sorted) <==> x in multiset(found);
          CollectMembers(walk, IsImage, x);
        }
      }
      assert forall x :: x in sorted ==> 0 <= x.permissions < 512 by {
        forall x | x in sorted ensures 0 <= x.permissions < 512 {
          var i :| 0 <= i < |walk| && IsImage(walk[i]) && ToInfo(walk[i]) == x;
        }
      }
      Success(sorted)
  }

  lemma CountAtLeastTwo<T>(s: seq<T>, i: nat, j: nat)
    requires i < j < |s| && s[i] == s[j]
    ensures multiset(s)[s[i]] >= 2
  {
    assert s == s[..j] + s[j..];
    assert s[i] in s[..j];
    assert s[j] in s[j..];
    assert multiset(s) == multiset(s[..j]) + multiset(s[j..]);
  }

  lemma {:induction false} CountAtMostOne(s: seq<ImageFileInfo>, x: ImageFileInfo)
    requires DistinctPaths(s)
    ensures multiset(s)[x] <= 1
  {
    if |s| > 0 {
      assert s == [s[0]] + s[1..];
      assert DistinctPaths(s[1..]);
      CountAtMostOne(s[1..], x);
      if s[0] == x {
        assert x !in s[1..];
      }
    }
  }

  lemma SamePathSameMember(a: seq<ImageFileInfo>, x: ImageFileInfo, y: ImageFileInfo)
    requires DistinctPaths(a) && x in a && y in a && x.path == y.path
    ensures x == y
  {
    var k :| 0 <= k < |a| && a[k] == x;
    var l :| 0 <= l < |a| && a[l] == y;
  }

  /** Reordering keeps paths distinct. */
  lemma PermutationKeepsDistinct(a: seq<ImageFileInfo>, b: seq<ImageFileInfo>)
    requires multiset(a) == multiset(b) && DistinctPaths(a)
    ensures DistinctPaths(b)
  {
    forall i, j | 0 <= i < j < |b| ensures b[i].path != b[j].path {
      if b[i].path == b[j].path {
        assert b[i] in multiset(a) && b[j] in multiset(a);
        SamePathSameMember(a, b[i], b[j]);
        CountAtLeastTwo(b, i, j);
        CountAtMostOne(a, b[i]);
      }
    }
  }

  /** Every image of a walk that never repeats a path appears exactly once in
      the result, and nothing else does. */
  lemma FindImagesExactlyOnce(wrkDir: string, walk: seq<WalkEntry>)
    requires NoDenial(walk) && DistinctEntryPaths(walk)
    ensures FindImages(wrkDir, Directory(walk)).Success?
    ensures DistinctPaths(FindImages(wrkDir, Directory(walk)).value)
    ensures forall i :: 0 <= i < |walk| && IsImage(walk[i]) ==>
              multiset(FindImages(wrkDir, Directory(walk)).value)[ToInfo(walk[i])] == 1
  {
    var found := Collect(walk, IsImage).value;
    var r := FindImages(wrkDir, Directory(walk)).value;
    assert r == SortByPath(found);
    CollectDistinct(walk, IsImage);
    PermutationKeepsDistinct(found, r);
    forall i | 0 <= i < |walk| && IsImage(walk[i]) ensures multiset(r)[ToInfo(walk[i])] == 1 {
      ImageCountedOnce(walk, r, i);
    }
  }

  lemma ImageCountedOnce(walk: seq<WalkEntry>, r: seq<ImageFileInfo>, i: nat)
    requires NoDenial(walk) && i < |walk| && IsImage(walk[i])
    requires multiset(r) == multiset(Collect(walk, IsImage).value) && DistinctPaths(r)
    ensures multiset(r)[ToInfo(walk[i])] == 1
  {
    var x := ToInfo(walk[i]);
    assert x in r by {
      CollectMembers(walk, IsImage, x);
      assert x in multiset(Collect(walk, IsImage).value);
    }
    CountAtMostOne(r, x);
  }

  /** In a sorted result whose paths are distinct, paths strictly ascend. */
  lemma FindImagesStrictlyAscending(wrkDir: string, walk: seq<WalkEntry>)
    requires NoDenial(walk) && DistinctEntryPaths(walk)
    ensures var r := FindImages(wrkDir, Directory(walk)).value;
            forall i, j :: 0 <= i < j < |r| ==> PathLe(r[i].path, r[j].path) && r[i].path != r[j].path
  {
    FindImagesExactlyOnce(wrkDir, walk);
    var r := FindImages(wrkDir, Directory(walk)).value;
    forall i, j | 0 <= i < j < |r| ensures PathLe(r[i].path, r[j].path) {
      SortedPairwise(r, i, j);
    }
  }

  /** Sorting by path leaves no choice when paths are distinct: two sorted
      arrangements of the same records are the same sequence. */
  lemma {:induction false} SortedUnique(a: seq<ImageFileInfo>, b: seq<ImageFileInfo>)
    requires SortedByPath(a) && SortedByPath(b) && multiset(a) == multiset(b) && DistinctPaths(a)
    ensures a == b
    decreases |a|
  {
    assert |a| == |multiset(a)| == |multiset(b)| == |b|;
    if |a| > 0 {
      SortedHeadsAgree(a, b);
      TailsPermute(a, b);
      SortedTail(a);
      SortedTail(b);
      SortedUnique(a[1..], b[1..]);
      assert a == [a[0]] + a[1..] && b == [b[0]] + b[1..];
    }
  }

  /** The least path of the same records comes first in both arrangements. */
  lemma SortedHeadsAgree(a: seq<ImageFileInfo>, b: seq<ImageFileInfo>)
    requires SortedByPath(a) && SortedByPath(b) && multiset(a) == multiset(b) && DistinctPaths(a)
    requires |a| > 0 && |b| > 0
    ensures a[0] == b[0]
  {
    assert a[0] in multiset(b) && b[0] in multiset(a);
    var k :| 0 <= k < |b| && b[k] == a[0];
    var m :| 0 <= m < |a| && a[m] == b[0];
    SortedPairwise(b, 0, k);
    SortedPairwise(a, 0, m);
    PathLeAntisymmetric(a[0].path, b[0].path);
    SamePathSameMember(a, a[0], b[0]);
  }

  lemma TailsPermute<T>(a: seq<T>, b: seq<T>)
    requires |a| > 0 && |b| > 0 && a[0] == b[0] && multiset(a) == multiset(b)
    ensures multiset(a[1..]) == multiset(b[1..])
  {
    assert a == [a[0]] + a[1..] && b == [b[0]] + b[1..];
    assert multiset(a[1..]) == multiset(a) - multiset{a[0]};
    assert multiset(b[1..]) == multiset(b) - multiset{b[0]};
  }

  lemma SortedTail(a: seq<ImageFileInfo>)
    requires |a| > 0 && SortedByPath(a)
    ensures SortedByPath(a[1..])
  {
    forall i | 0 < i < |a[1..]| ensures PathLe(a[1..][i - 1].path, a[1..][i].path) {
      assert a[1..][i - 1] == a[i] && a[1..][i] == a[i + 1];
    }
  }

  /** Records without repeated paths are determined, as a multiset, by which
      records they hold. */
  lemma SameMembersSameMultiset(a: seq<ImageFileInfo>, b: seq<ImageFileInfo>)
    requires DistinctPaths(a) && DistinctPaths(b)
    requires forall x :: x in a <==> x in b
    ensures multiset(a) == multiset(b)
  {
    forall x ensures multiset(a)[x] == multiset(b)[x] {
      CountAtMostOne(a, x);
      CountAtMostOne(b, x);
      assert x in a <==> x in multiset(a);
      assert x in b <==> x in multiset(b);
    }
  }

  /** The order in which the walk visits the entries does not matter. */
  lemma SelectsIgnoresOrder(w1: seq<WalkEntry>, w2: seq<WalkEntry>, keep: WalkEntry -> bool, x: ImageFileInfo)
    requires multiset(w1) == multiset(w2)
    ensures Selects(w1, keep, x) ==> Selects(w2, keep, x)
  {
    if Selects(w1, keep, x) {
      var i :| 0 <= i < |w1| && w1[i].Entry? && keep(w1[i]) && ToInfo(w1[i]) == x;
      assert w1[i] in multiset(w2);
      var j :| 0 <= j < |w2| && w2[j] == w1[i];
    }
  }

  /** `find_images` returns the same list whatever order the walk yields
      the entries in: the sort by path removes the walk order. */
  lemma FindImagesIgnoresWalkOrder(wrkDir: string, w1: seq<WalkEntry>, w2: seq<WalkEntry>)
    requires multiset(w1) == multiset(w2)
    requires NoDenial(w1) && DistinctEntryPaths(w1) && NoDenial(w2) && DistinctEntryPaths(w2)
    ensures FindImages(wrkDir, Directory(w1)) == FindImages(wrkDir, Directory(w2))
  {
    var r1 := FindImages(wrkDir, Directory(w1)).value;
    var r2 := FindImages(wrkDir, Directory(w2)).value;
    FindImagesExactlyOnce(wrkDir, w1);
    FindImagesExactlyOnce(wrkDir, w2);
    forall x ensures x in r1 <==> x in r2 {
      SelectsIgnoresOrder(w1, w2, IsImage, x);
      SelectsIgnoresOrder(w2, w1, IsImage, x);
    }
    SameMembersSameMultiset(r1, r2);
    SortedUnique(r1, r2);
  }
}
