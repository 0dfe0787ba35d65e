/** Where a converted image is stored and when a stored image may be reused. */
module Cache {

  import opened Wrappers
  import opened Paths
  import opened Files
  import opened Errors

  /** `"\n".join(s)` for a string `s`: joining a string iterates over its
      characters, so the key is every character of `s` with a newline between
      each two. (The key is built from a plain string, not a one-element tuple.) */
  function HashKey(s: string): (k: string)
    ensures |k| == if s == [] then 0 else 2 * |s| - 1
    ensures forall i :: 0 <= i < |s| ==> k[2 * i] == s[i]
    ensures forall i :: 0 <= i < |k| && i % 2 == 1 ==> k[i] == '\n'
  {
    if |s| <= 1 then s
    else
      var t := HashKey(s[1..]);
      var k := [s[0], '\n'] + t;
      assert forall i :: 2 <= i < |k| ==> k[i] == t[i - 2];
      k
  }

  /** Every other character, starting with the first: reads a hash key back. */
  function Unjoin(k: string): string {
    if |k| <= 1 then k else [k[0]] + Unjoin(k[2..])
  }

  lemma {:induction false} HashKeyRoundTrip(s: string)
    ensures Unjoin(HashKey(s)) == s
  {
    if |s| > 1 {
      var k := HashKey(s);
      assert k[0] == s[0];
      assert k[2..] == HashKey(s[1..]);
      HashKeyRoundTrip(s[1..]);
      assert s == [s[0]] + s[1..];
    }
  }

  /** The separators lose nothing: different paths give different hash keys. */
  lemma HashKeyInjective(a: string, b: string)
    requires HashKey(a) == HashKey(b)
    ensures a == b
  {
    HashKeyRoundTrip(a);
    HashKeyRoundTrip(b);
  }

  /** The converter's image directory, `<doctreedir>/umlet`. */
  function ImageDir(doctreedir: Path): (r: Path)
    ensures Parent(r) == doctreedir && Name(r) == "umlet"
  {
    doctreedir + ["umlet"]
  }

  /** The cache directory name of `input`: the digest of the hash key of its path
      relative to the source directory; ValueError when it is not below it. */
  function CacheKey(srcdir: Path, input: Path, sha1: string -> string): (r: Result<string, Error>)
    ensures r.Err? <==> !(srcdir <= input)
    ensures r.Err? ==> r.error == NotRelative(input, srcdir)
    ensures r.Ok? ==> r.value == sha1(HashKey(RelStr(input[|srcdir|..])))
  {
    match RelativeTo(input, srcdir)
    case None => Err(NotRelative(input, srcdir))
    case Some(rel) => Ok(sha1(HashKey(RelStr(rel))))
  }

  /** `imagedir / sha_key / out_filename`. */
  function ExportPath(doctreedir: Path, key: string, outFilename: string): (r: Path)
    ensures WellFormed(doctreedir) ==> WellFormed(r)
  {
    Append(Append(ImageDir(doctreedir), key), outFilename)
  }

  /** For a digest and a file name that are plain components (as a hex digest and
      a Sphinx file name are) the layout is `<doctreedir>/umlet/<key>/<name>`. */
  lemma ExportLayout(doctreedir: Path, key: string, outFilename: string)
    requires IsComponent(key) && IsComponent(outFilename)
    ensures ExportPath(doctreedir, key, outFilename) == doctreedir + ["umlet", key, outFilename]
    ensures Parent(ExportPath(doctreedir, key, outFilename)) == doctreedir + ["umlet", key]
    ensures Name(ExportPath(doctreedir, key, outFilename)) == outFilename
  {
    AppendComponent(ImageDir(doctreedir), key);
    AppendComponent(ImageDir(doctreedir) + [key], outFilename);
    assert ImageDir(doctreedir) + [key] + [outFilename] == doctreedir + ["umlet", key, outFilename];
  }

  /** The key depends on the path below the source directory only, not on where
      that directory lies. */
  lemma CacheKeyIgnoresRoot(root1: Path, root2: Path, rel: Path, sha1: string -> string)
    ensures CacheKey(root1, root1 + rel, sha1) == CacheKey(root2, root2 + rel, sha1)
    ensures CacheKey(root1, root1 + rel, sha1) == Ok(sha1(HashKey(RelStr(rel))))
  {
    assert (root1 + rel)[..|root1|] == root1 && (root1 + rel)[|root1|..] == rel;
    assert (root2 + rel)[..|root2|] == root2 && (root2 + rel)[|root2|..] == rel;
  }

  lemma {:induction false} RelStrInjective(a: Path, b: Path)
    requires WellFormed(a) && WellFormed(b)
    requires RelStr(a) == RelStr(b)
    ensures a == b
  {
    assert Split(".") == [] by {
      assert NameLength(".") == 1;
      assert "."[..1] == ".";
      assert "."[1..] == "";
    }
    if a == [] && b != [] {
      SplitJoin(b);
    } else if a != [] && b == [] {
      SplitJoin(a);
    } else if a != [] {
      SplitJoin(a);
      SplitJoin(b);
    }
  }

  /** With a collision-free digest, two different sources below the same source
      directory get different cache keys. */
  lemma DistinctSourcesDistinctKeys(srcdir: Path, a: Path, b: Path, sha1: string -> string)
    requires forall x, y :: sha1(x) == sha1(y) ==> x == y
    requires WellFormed(a) && WellFormed(b) && a != b
    requires CacheKey(srcdir, a, sha1).Ok? && CacheKey(srcdir, b, sha1).Ok?
    ensures CacheKey(srcdir, a, sha1) != CacheKey(srcdir, b, sha1)
  {
    var ra, rb := a[|srcdir|..], b[|srcdir|..];
    assert a == srcdir + ra && b == srcdir + rb;
    if CacheKey(srcdir, a, sha1) == CacheKey(srcdir, b, sha1) {
      HashKeyInjective(RelStr(ra), RelStr(rb));
      RelStrInjective(ra, rb);
      assert false;
    }
  }

  /** With a collision-free digest whose values are plain path components (as a
      hex digest is), two different sources never share a cache directory. */
  lemma DistinctSourcesDistinctDirs(srcdir: Path, doctreedir: Path, a: Path, b: Path, outFilename: string, sha1: string -> string)
    requires forall x, y :: sha1(x) == sha1(y) ==> x == y
    requires forall x :: IsComponent(sha1(x))
    requires IsComponent(outFilename)
    requires WellFormed(a) && WellFormed(b) && a != b
    requires CacheKey(srcdir, a, sha1).Ok? && CacheKey(srcdir, b, sha1).Ok?
    ensures Parent(ExportPath(doctreedir, CacheKey(srcdir, a, sha1).value, outFilename))
         != Parent(ExportPath(doctreedir, CacheKey(srcdir, b, sha1).value, outFilename))
  {
    var ka, kb := CacheKey(srcdir, a, sha1).value, CacheKey(srcdir, b, sha1).value;
    DistinctSourcesDistinctKeys(srcdir, a, b, sha1);
    ExportLayout(doctreedir, ka, outFilename);
    ExportLayout(doctreedir, kb, outFilename);
    assert (doctreedir + ["umlet", ka])[|doctreedir| + 1] == ka;
    assert (doctreedir + ["umlet", kb])[|doctreedir| + 1] == kb;
  }

  /** The staleness test: the stored image exists and is strictly newer than its source. */
  predicate Fresh(es: Entries, output: Path, input: Path)
    ensures Fresh(es, output, input) ==> output != input
  {
    output in es && input in es && es[output].mtime > es[input].mtime
  }
}
