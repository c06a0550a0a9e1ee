/** The upload middleware's configuration for story images: the file filter, the size limit
    and the name a stored file gets. */
module Uploads {
  import opened Wrappers
  import opened JsText

  /** `limits.fileSize`: 2 MiB. A file of exactly this size is accepted. */
  const MaxFileSize: nat := 2 * 1024 * 1024

  /** `fileFilter`: the declared MIME type is present and starts with `"image/"`. */
  predicate AcceptsMimeType(mimetype: Option<string>) {
    mimetype.Some? && StartsWith(mimetype.value, "image/")
  }

  /** The size limit. */
  predicate WithinSizeLimit(size: nat) {
    size <= MaxFileSize
  }

  /** The filter and the limit agree with the numbers they are configured with. */
  lemma UploadLimits()
    ensures MaxFileSize == 2097152
    ensures WithinSizeLimit(2097152) && !WithinSizeLimit(2097153)
    ensures WithinSizeLimit(0)
    ensures !WithinSizeLimit(3 * 1024 * 1024)
    ensures AcceptsMimeType(Some("image/png")) && AcceptsMimeType(Some("image/"))
    ensures !AcceptsMimeType(None) && !AcceptsMimeType(Some("")) && !AcceptsMimeType(Some("text/plain"))
    ensures !AcceptsMimeType(Some("Image/png"))
  {
    assert "text/plain"[0] != "image/"[0];
    assert "Image/png"[0] != "image/"[0];
  }

  /** The position of the last occurrence of `c` in `s`. */
  function LastIndex(s: string, c: char): (k: Option<nat>)
    ensures k.Some? ==> k.value < |s| && s[k.value] == c && c !in s[k.value + 1..]
    ensures k.None? ==> c !in s
  {
    if s == [] then None
    else if s[|s| - 1] == c then Some(|s| - 1)
    else
      var k := LastIndex(s[..|s| - 1], c);
      assert s == s[..|s| - 1] + [s[|s| - 1]];
      k
  }

  /** `s` without its trailing slashes. */
  function DropTrailingSlashes(s: string): (r: string)
    ensures |r| <= |s| && r == s[..|r|]
    ensures r == [] || r[|r| - 1] != '/'
  {
    if s != [] && s[|s| - 1] == '/' then DropTrailingSlashes(s[..|s| - 1]) else s
  }

  /** The last segment of a path with no trailing slash. */
  function Basename(q: string): (b: string)
    ensures '/' !in b
    ensures |b| <= |q| && b == q[|q| - |b|..]
  {
    match LastIndex(q, '/')
    case None => q
    case Some(k) => q[k + 1..]
  }

  /** Node's POSIX `path.extname`: from the last `.` of the last path segment to its end,
      or empty when the segment has no `.`, starts with its only dots' last one (a dot file
      such as `.png`), or is `..`. */
  function Extname(path: string): (e: string)
    ensures e == [] || (e[0] == '.' && '.' !in e[1..] && '/' !in e)
    ensures var q := DropTrailingSlashes(path); e == [] || (|e| < |q| && e == q[|q| - |e|..])
  {
    var b := Basename(DropTrailingSlashes(path));
    match LastIndex(b, '.')
    case None => ""
    case Some(k) => if k == 0 || b == ".." then "" else b[k..]
  }

  /** The extension a stored file keeps: the original's, or `.jpg` when it has none. */
  function StoredExtension(originalName: string): (e: string)
    ensures |e| >= 1 && e[0] == '.' && '.' !in e[1..]
    ensures Extname(originalName) != [] ==> e == Extname(originalName)
    ensures Extname(originalName) == [] ==> e == ".jpg"
  {
    var ext := Extname(originalName);
    if ext == [] then ".jpg" else ext
  }

  /** The extension of a name made of a non-empty stem, a dot and a dot-free suffix is that
      dot and suffix, in any directory; the stem may hold dots of its own (`my.photo.png`
      has `.png`, `..png` has `.png`). The one exception is the name `..` itself. */
  lemma ExtnameOfName(dir: string, stem: string, suffix: string)
    requires dir == [] || dir[|dir| - 1] == '/'
    requires stem != [] && '/' !in stem && stem + ['.'] + suffix != ".."
    requires '.' !in suffix && '/' !in suffix
    ensures Extname(dir + stem + ['.'] + suffix) == ['.'] + suffix
  {
    var name := stem + ['.'] + suffix;
    var path := dir + name;
    assert dir + stem + ['.'] + suffix == path;
    NameEndsWithoutSlash(dir, name);
    BasenameAfterDir(dir, name);
    LastDotOfName(stem, suffix);
    ExtnameAtDot(path, name, |stem|);
  }

  /** A dot file, a name whose only dot is its first character, has no extension, in any
      directory: `uploads/.png` has none. */
  lemma DotFileHasNoExtension(dir: string, suffix: string)
    requires dir == [] || dir[|dir| - 1] == '/'
    requires '.' !in suffix && '/' !in suffix
    ensures Extname(dir + ['.'] + suffix) == []
  {
    var name := [] + ['.'] + suffix;
    var path := dir + name;
    assert dir + ['.'] + suffix == path;
    NameEndsWithoutSlash(dir, name);
    BasenameAfterDir(dir, name);
    LastDotOfName([], suffix);
  }

  /** Where the base name's last dot is found decides the extension. */
  lemma ExtnameAtDot(path: string, b: string, k: nat)
    requires DropTrailingSlashes(path) == path && Basename(path) == b
    requires LastIndex(b, '.') == Some(k) && k != 0 && b != ".."
    ensures Extname(path) == b[k..]
  {
  }

  /** A path ending in a slash-free name has no trailing slash to drop. */
  lemma NameEndsWithoutSlash(dir: string, name: string)
    requires name != [] && '/' !in name
    ensures DropTrailingSlashes(dir + name) == dir + name
  {
    var path := dir + name;
    assert path[|path| - 1] == name[|name| - 1];
  }

  /** Below a directory ending in `/`, the base name of a slash-free name is the name. */
  lemma BasenameAfterDir(dir: string, name: string)
    requires dir == [] || dir[|dir| - 1] == '/'
    requires '/' !in name
    ensures Basename(dir + name) == name
  {
    var path := dir + name;
    assert path[|dir|..] == name;
    match LastIndex(path, '/')
    case None =>
      if dir != [] { assert path[|dir| - 1] == '/'; }
    case Some(k) =>
      assert k == |dir| - 1;
  }

  /** The last dot of `stem.suffix`, when the suffix holds no dot, is the one before it. */
  lemma LastDotOfName(stem: string, suffix: string)
    requires '.' !in suffix
    ensures LastIndex(stem + ['.'] + suffix, '.') == Some(|stem|)
    ensures (stem + ['.'] + suffix)[|stem|..] == ['.'] + suffix
  {
    var tail := ['.'] + suffix;
    assert stem + ['.'] + suffix == stem + tail;
    DropPrefix(stem, tail);
    LastIndexBeforeSuffix(stem, '.', suffix);
  }

  /** Dropping a prefix's length leaves the rest. */
  lemma DropPrefix(a: string, b: string)
    ensures (a + b)[|a|..] == b
  {
  }

  /** The last `c` of `pre + [c] + suffix`, when `suffix` holds no `c`, is the one after `pre`. */
  lemma {:induction false} LastIndexBeforeSuffix(pre: string, c: char, suffix: string)
    requires c !in suffix
    ensures LastIndex(pre + [c] + suffix, c) == Some(|pre|)
    decreases |suffix|
  {
    var s := pre + [c] + suffix;
    if suffix != [] {
      var shorter := suffix[..|suffix| - 1];
      assert s[|s| - 1] == suffix[|suffix| - 1] != c;
      assert s[..|s| - 1] == pre + [c] + shorter;
      assert c !in shorter by {
        forall i | 0 <= i < |shorter| ensures shorter[i] != c {
          assert shorter[i] == suffix[i];
        }
      }
      LastIndexBeforeSuffix(pre, c, shorter);
    }
  }

  /** A path whose last character is not `/` has no trailing slash to drop. */
  lemma NoTrailingSlash(path: string)
    requires path != [] && path[|path| - 1] != '/'
    ensures DropTrailingSlashes(path) == path
  {
  }

  /** An extension keeps a trailing space: `"photo.png "` has the extension `".png "`. */
  lemma ExtensionWithTrailingSpace()
    ensures Extname("photo.png ") == ".png "
  {
    assert DropTrailingSlashes("photo.png ") == "photo.png ";
    assert LastIndex("photo.png ", '/') == None;
    assert LastIndex("photo.png ", '.') == Some(5);
  }

  /** Only the last dot of a name counts: `"my.photo.png"` has the extension `".png"`. */
  lemma ExtensionAfterLastDot()
    ensures Extname("my.photo.png") == ".png"
  {
    assert DropTrailingSlashes("my.photo.png") == "my.photo.png";
    assert LastIndex("my.photo.png", '/') == None;
    assert LastIndex("my.photo.png", '.') == Some(8);
  }

  /** A name without a dot that ends in a space, `"photo "`, is stored as `.jpg`. */
  lemma NoExtensionWithTrailingSpace()
    ensures StoredExtension("photo ") == ".jpg"
  {
    NoDotStoredAsJpg("photo ");
  }

  /** A name without a dot has no extension, so its file is stored as `.jpg`. */
  lemma NoDotStoredAsJpg(name: string)
    requires '.' !in name
    ensures Extname(name) == []
    ensures StoredExtension(name) == ".jpg"
  {
    var q := DropTrailingSlashes(name);
    var b := Basename(q);
    assert forall i :: 0 <= i < |b| ==> b[i] == q[|q| - |b| + i] == name[|q| - |b| + i];
    assert '.' !in b;
  }

  /** The extension rule on a plain name with an extension. */
  lemma ExtnameOfPlainNames()
    ensures Extname("photo.png") == ".png"
  {
    assert DropTrailingSlashes("photo.png") == "photo.png";
    assert LastIndex("photo.png", '/') == None;
    assert LastIndex("photo.png", '.') == Some(5);
  }

  /** The extension rule on a plain name without one. */
  lemma ExtnameOfBareName()
    ensures Extname("photo") == ""
    ensures StoredExtension("photo") == ".jpg"
  {
    assert DropTrailingSlashes("photo") == "photo";
    assert LastIndex("photo", '/') == None;
    assert LastIndex("photo", '.') == None;
  }

  /** The extension rule on dot files and on `..`. */
  lemma ExtnameOfDotNames()
    ensures Extname(".png") == ""
    ensures Extname("..") == ""
  {
    assert LastIndex(".png", '/') == None;
    assert LastIndex(".png", '.') == Some(0);
    assert LastIndex("..", '/') == None;
    assert LastIndex("..", '.') == Some(1);
  }

  predicate IsDigit(c: char) {
    '0' <= c <= '9'
  }

  predicate AllDigits(s: string) {
    forall i :: 0 <= i < |s| ==> IsDigit(s[i])
  }

  function DigitChar(d: nat): (c: char)
    requires d < 10
    ensures IsDigit(c) && c as int - '0' as int == d
  {
    ('0' as int + d) as char
  }

  /** The decimal rendering JavaScript gives a non-negative integer below 10^21. */
  function Decimal(n: nat): (s: string)
    ensures |s| >= 1 && AllDigits(s)
    ensures |s| > 1 ==> s[0] != '0'
  {
    if n < 10 then [DigitChar(n)] else Decimal(n / 10) + [DigitChar(n % 10)]
  }

  /** Reading a string of digits back as a number. */
  function ParseDecimal(s: string): nat
    requires AllDigits(s)
  {
    if s == [] then 0 else 10 * ParseDecimal(s[..|s| - 1]) + (s[|s| - 1] as int - '0' as int)
  }

  /** Rendering a number in decimal loses nothing. */
  lemma {:induction false} ParseDecimalRoundTrip(n: nat)
    ensures ParseDecimal(Decimal(n)) == n
  {
    if n >= 10 {
      ParseDecimalRoundTrip(n / 10);
      var s := Decimal(n);
      assert s[..|s| - 1] == Decimal(n / 10);
    }
  }

  /** The storage engine's `filename`: `${Date.now()}-${Math.round(Math.random() * 1e9)}${ext}`.
      The clock reading and the rounded random number are parameters. */
  function GeneratedFilename(now: nat, random: nat, originalName: string): (name: string)
    ensures StartsWith(name, Decimal(now) + "-")
    ensures |StoredExtension(originalName)| <= |name|
    ensures name[|name| - |StoredExtension(originalName)|..] == StoredExtension(originalName)
  {
    var t := Decimal(now);
    var e := StoredExtension(originalName);
    JoinShape(t, Decimal(random), e);
    t + "-" + Decimal(random) + e
  }

  /** `t-r` followed by `e` starts with `t-` and ends with `e`. */
  lemma JoinShape(t: string, r: string, e: string)
    ensures StartsWith(t + "-" + r + e, t + "-")
    ensures (t + "-" + r + e)[|t + "-" + r + e| - |e|..] == e
  {
    var name := t + "-" + r + e;
    assert name[..|t| + 1] == t + "-";
  }

  /** The name split at its first `-` and at the `.` that starts the extension. */
  lemma GeneratedFilenameParts(now: nat, random: nat, originalName: string)
    ensures var e := StoredExtension(originalName);
            GeneratedFilename(now, random, originalName)
            == Decimal(now) + ['-'] + (Decimal(random) + ['.'] + e[1..])
  {
    var e := StoredExtension(originalName);
    assert GeneratedFilename(now, random, originalName) == Decimal(now) + "-" + Decimal(random) + e;
    JoinParts(Decimal(now), Decimal(random), e);
  }

  /** Regrouping `t-r.x` around its separators. */
  lemma JoinParts(t: string, r: string, e: string)
    requires |e| >= 1 && e[0] == '.'
    ensures t + "-" + r + e == t + ['-'] + (r + ['.'] + e[1..])
  {
    assert e == ['.'] + e[1..];
  }

  /** Two different clock readings or two different random numbers never give the same
      file name, whatever the original names. */
  lemma {:induction false} GeneratedFilenameInjective(t1: nat, r1: nat, o1: string, t2: nat, r2: nat, o2: string)
    ensures GeneratedFilename(t1, r1, o1) == GeneratedFilename(t2, r2, o2) ==>
              t1 == t2 && r1 == r2 && StoredExtension(o1) == StoredExtension(o2)
  {
    if GeneratedFilename(t1, r1, o1) == GeneratedFilename(t2, r2, o2) {
      GeneratedFilenameParts(t1, r1, o1);
      GeneratedFilenameParts(t2, r2, o2);
      JoinInjective(Decimal(t1), Decimal(r1), StoredExtension(o1), Decimal(t2), Decimal(r2), StoredExtension(o2));
      ParseDecimalRoundTrip(t1);
      ParseDecimalRoundTrip(t2);
      ParseDecimalRoundTrip(r1);
      ParseDecimalRoundTrip(r2);
    }
  }

  /** Digits, `-`, digits and a dotted extension can be taken apart again. */
  lemma JoinInjective(t1: string, d1: string, e1: string, t2: string, d2: string, e2: string)
    requires AllDigits(t1) && AllDigits(d1) && AllDigits(t2) && AllDigits(d2)
    requires |e1| >= 1 && e1[0] == '.' && |e2| >= 1 && e2[0] == '.'
    requires t1 + ['-'] + (d1 + ['.'] + e1[1..]) == t2 + ['-'] + (d2 + ['.'] + e2[1..])
    ensures t1 == t2 && d1 == d2 && e1 == e2
  {
    NoSepInDigits(t1, '-');
    NoSepInDigits(t2, '-');
    SplitAtFirst(t1, d1 + ['.'] + e1[1..], t2, d2 + ['.'] + e2[1..], '-');
    NoSepInDigits(d1, '.');
    NoSepInDigits(d2, '.');
    SplitAtFirst(d1, e1[1..], d2, e2[1..], '.');
    assert e1 == ['.'] + e1[1..];
    assert e2 == ['.'] + e2[1..];
  }

  lemma NoSepInDigits(s: string, sep: char)
    requires AllDigits(s)
    requires !IsDigit(sep)
    ensures sep !in s
  {
  }

  /** A string is cut uniquely at the first occurrence of a separator. */
  lemma SplitAtFirst(a1: string, b1: string, a2: string, b2: string, sep: char)
    requires sep !in a1 && sep !in a2
    requires a1 + [sep] + b1 == a2 + [sep] + b2
    ensures a1 == a2 && b1 == b2
  {
    var s := a1 + [sep] + b1;
    assert s[|a1|] == sep;
    assert s[|a2|] == sep;
    assert a1 == s[..|a1|] == a2;
    assert b1 == s[|a1| + 1..] == b2;
  }
}
