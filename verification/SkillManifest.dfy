/** The manifest of a skill tree: the stream of length-framed paths and contents whose hash the install lock records. */
module SkillManifest {
  import opened Basics
  import opened Ascending

  type Bytes = seq<byte>

  /** A regular file; the path is relative to the root, in UTF-8. */
  datatype File = File(path: Bytes, content: Bytes)

  type Tree = map<Bytes, Bytes>

  /** `digest` stands for the hash of a stream: equal exactly for equal streams. */
  datatype Digest = Digest(stream: Bytes)

  datatype Lock = Lock(cliVersion: string, skillVersion: string, digest: Digest)

  /** What the installer takes from its environment: the order of `sort` on paths, the lock's path, and its JSON text. */
  datatype Platform = Platform(
    before: (Bytes, Bytes) -> bool, lockPath: Bytes, lockText: Lock -> Bytes, parseLock: Bytes -> Option<Lock>)

  ghost predicate IsPlatform(p: Platform)
  {
    && (forall a :: !p.before(a, a))
    && (forall a, b, c :: p.before(a, b) && p.before(b, c) ==> p.before(a, c))
    && (forall a, b :: a != b ==> p.before(a, b) || p.before(b, a))
    && (forall lock :: p.parseLock(p.lockText(lock)) == Some(lock))
  }

  // ---------------------------------------------------------------------------------------------
  // Framing
  // ---------------------------------------------------------------------------------------------

  function Pow256(width: nat): (p: nat)
    ensures p > 0
  {
    if width == 0 then 1 else 256 * Pow256(width - 1)
  }

  function BigEndian(n: nat, width: nat): (s: Bytes)
    ensures |s| == width
  {
    if width == 0 then [] else BigEndian(n / 256, width - 1) + [n % 256]
  }

  function Value(s: Bytes): nat
  {
    if s == [] then 0 else 256 * Value(s[..|s| - 1]) + s[|s| - 1]
  }

  lemma {:induction false} BigEndianReadsBack(n: nat, width: nat)
    requires n < Pow256(width)
    ensures Value(BigEndian(n, width)) == n
  {
    if width > 0 {
      BigEndianReadsBack(n / 256, width - 1);
      assert BigEndian(n, width)[..width - 1] == BigEndian(n / 256, width - 1);
    }
  }

  const LENGTH_BYTES: nat := 8

  function Frame(s: Bytes): Bytes
  {
    BigEndian(|s|, LENGTH_BYTES) + s
  }

  predicate Fits(s: Bytes)
  {
    |s| < Pow256(LENGTH_BYTES)
  }

  function Stream(files: seq<File>): Bytes
  {
    if files == [] then []
    else Stream(files[..|files| - 1]) + Frame(files[|files| - 1].path) + Frame(files[|files| - 1].content)
  }

  lemma Regroup(a: Bytes, b: Bytes, c: Bytes, d: Bytes, e: Bytes)
    ensures (a + (b + c)) + d + e == a + (b + (c + d + e))
    ensures [] + a + b == a + (b + [])
  {
  }

  lemma {:induction false} StreamHead(files: seq<File>)
    requires files != []
    ensures Stream(files) == Frame(files[0].path) + (Frame(files[0].content) + Stream(files[1..]))
  {
    hide Frame;
    if |files| > 1 {
      var init, last := files[..|files| - 1], files[|files| - 1];
      StreamHead(init);
      assert init[1..] == files[1..][..|files| - 2];
      assert Stream(files[1..]) == Stream(init[1..]) + Frame(last.path) + Frame(last.content);
      Regroup(Frame(files[0].path), Frame(files[0].content), Stream(init[1..]), Frame(last.path), Frame(last.content));
    } else {
      assert files[..0] == [] && files[1..] == [];
      Regroup(Frame(files[0].path), Frame(files[0].content), [], [], []);
    }
  }

  /** A framed text and what follows it; `None` when the stream is too short. */
  function ReadFrame(s: Bytes): (r: Option<(Bytes, Bytes)>)
    ensures r.Some? ==> |r.value.1| + LENGTH_BYTES <= |s|
  {
    if |s| < LENGTH_BYTES || |s| - LENGTH_BYTES < Value(s[..LENGTH_BYTES]) then None
    else
      var n := Value(s[..LENGTH_BYTES]);
      Some((s[LENGTH_BYTES..LENGTH_BYTES + n], s[LENGTH_BYTES + n..]))
  }

  lemma ReadFrameOfFrame(s: Bytes, rest: Bytes)
    requires Fits(s)
    ensures ReadFrame(Frame(s) + rest) == Some((s, rest))
  {
    var t := Frame(s) + rest;
    assert t[..LENGTH_BYTES] == BigEndian(|s|, LENGTH_BYTES);
    BigEndianReadsBack(|s|, LENGTH_BYTES);
    assert t[LENGTH_BYTES..LENGTH_BYTES + |s|] == s;
    assert t[LENGTH_BYTES + |s|..] == rest;
  }

  function Decode(s: Bytes): Option<seq<File>>
    decreases |s|
  {
    if s == [] then Some([])
    else
      match ReadFrame(s)
      case None => None
      case Some((path, afterPath)) =>
        match ReadFrame(afterPath)
        case None => None
        case Some((content, rest)) =>
          match Decode(rest)
          case None => None
          case Some(files) => Some([File(path, content)] + files)
  }

  ghost predicate AllFit(files: seq<File>)
  {
    forall i :: 0 <= i < |files| ==> Fits(files[i].path) && Fits(files[i].content)
  }

  /** The stream decodes back to the very list of files it was made of. */
  lemma {:induction false} StreamDecodes(files: seq<File>)
    requires AllFit(files)
    ensures Decode(Stream(files)) == Some(files)
  {
    if files != [] {
      var f, rest := files[0], files[1..];
      StreamHead(files);
      StreamDecodes(rest);
      ReadFrameOfFrame(f.path, Frame(f.content) + Stream(rest));
      ReadFrameOfFrame(f.content, Stream(rest));
      assert Stream(files) != [];
      assert files == [f] + rest;
    }
  }

  // ---------------------------------------------------------------------------------------------
  // Listings of a tree
  // ---------------------------------------------------------------------------------------------

  function FileBefore(p: Platform): (File, File) -> bool
  {
    (f: File, g: File) => p.before(f.path, g.path)
  }

  ghost predicate Sorted(p: Platform, files: seq<File>)
  {
    IsAscending(FileBefore(p), files)
  }

  /** The files of the tree, sorted by path. */
  ghost predicate IsListing(p: Platform, files: seq<File>, tree: Tree)
  {
    && Sorted(p, files)
    && (forall f :: f in files <==> f.path in tree && tree[f.path] == f.content)
  }

  ghost predicate TreeFits(tree: Tree)
  {
    forall path :: path in tree ==> Fits(path) && Fits(tree[path])
  }

  lemma ListingFits(p: Platform, files: seq<File>, tree: Tree)
    requires IsListing(p, files, tree) && TreeFits(tree)
    ensures AllFit(files)
  {
    forall i | 0 <= i < |files| ensures Fits(files[i].path) && Fits(files[i].content) {
      assert files[i] in files;
    }
  }

  /** A tree has one sorted listing. */
  lemma ListingIsUnique(p: Platform, files: seq<File>, others: seq<File>)
    requires IsPlatform(p) && Sorted(p, files) && Sorted(p, others)
    requires forall f :: f in files <==> f in others
    ensures files == others
  {
    FilesAreOrdered(p);
    AscendingIsUnique(FileBefore(p), files, others);
  }

  lemma FilesAreOrdered(p: Platform)
    requires IsPlatform(p)
    ensures IsStrictOrder(FileBefore(p))
  {
    var before := FileBefore(p);
    forall f: File ensures !before(f, f) {
      assert !p.before(f.path, f.path);
    }
    forall f, g, h | before(f, g) && before(g, h) ensures before(f, h) {
      assert p.before(f.path, g.path) && p.before(g.path, h.path);
    }
  }

  ghost predicate IsDigestOf(p: Platform, d: Digest, tree: Tree)
  {
    exists files :: IsListing(p, files, tree) && d == Digest(Stream(files))
  }

  /** Two trees have the same digest exactly when they are the same tree. */
  lemma DigestsTellTreesApart(p: Platform, d: Digest, tree: Tree, e: Digest, other: Tree)
    requires IsPlatform(p) && TreeFits(tree) && TreeFits(other)
    requires IsDigestOf(p, d, tree) && IsDigestOf(p, e, other)
    ensures d == e <==> tree == other
  {
    var files :| IsListing(p, files, tree) && d == Digest(Stream(files));
    var others :| IsListing(p, others, other) && e == Digest(Stream(others));
    ListingFits(p, files, tree);
    ListingFits(p, others, other);
    StreamDecodes(files);
    StreamDecodes(others);
    if d == e {
      SameListingSameTree(p, files, tree, other);
    } else {
      if tree == other {
        ListingIsUnique(p, files, others);
      }
    }
  }

  lemma SameListingSameTree(p: Platform, files: seq<File>, tree: Tree, other: Tree)
    requires IsListing(p, files, tree) && IsListing(p, files, other)
    ensures tree == other
  {
    forall path ensures path in tree <==> path in other {
      assert path in tree ==> File(path, tree[path]) in files;
      assert path in other ==> File(path, other[path]) in files;
    }
    forall path | path in tree ensures tree[path] == other[path] {
      assert File(path, tree[path]) in files;
    }
  }

  // ---------------------------------------------------------------------------------------------
  // Computing the digest, checking an installation
  // ---------------------------------------------------------------------------------------------

  /** The path that sorts first. */
  method First(p: Platform, paths: set<Bytes>) returns (least: Bytes)
    requires IsPlatform(p) && paths != {}
    ensures least in paths && forall path :: path in paths && path != least ==> p.before(least, path)
  {
    least :| least in paths;
    var left := paths - {least};
    while left != {}
      invariant left <= paths && least in paths && least !in left
      invariant forall path :: path in paths && path !in left && path != least ==> p.before(least, path)
      decreases |left|
    {
      var path :| path in left;
      left := left - {path};
      if p.before(path, least) {
        least := path;
      }
    }
  }

  /** The regular files of a tree, in sorted order. */
  method RegularFiles(p: Platform, tree: Tree) returns (files: seq<File>)
    requires IsPlatform(p)
    ensures IsListing(p, files, tree)
  {
    files := [];
    var left := tree.Keys;
    while left != {}
      invariant left <= tree.Keys && Sorted(p, files)
      invariant forall f :: f in files <==> f.path in tree && f.path !in left && tree[f.path] == f.content
      invariant forall f, path :: f in files && path in left ==> p.before(f.path, path)
      decreases |left|
    {
      var path := First(p, left);
      var f := File(path, tree[path]);
      ghost var before := files;
      files := files + [f];
      left := left - {path};
      assert forall g :: g in files <==> g in before || g == f;
      forall i | 0 <= i < |before| ensures p.before(before[i].path, path) {
        assert before[i] in before;
      }
    }
  }

  /** The digest of the files, fed to the hash frame by frame. */
  method ManifestDigest(p: Platform, tree: Tree) returns (d: Digest)
    requires IsPlatform(p)
    ensures IsDigestOf(p, d, Unlocked(p, tree))
  {
    var files := RegularFiles(p, Unlocked(p, tree));
    var hashed: Bytes := [];
    for i := 0 to |files|
      invariant hashed == Stream(files[..i])
    {
      assert files[..i + 1][..i] == files[..i];
      hashed := hashed + Frame(files[i].path);
      hashed := hashed + Frame(files[i].content);
    }
    assert files[..|files|] == files;
    d := Digest(hashed);
  }

  /** The tree without its lock file. */
  function Unlocked(p: Platform, tree: Tree): Tree
  {
    tree - {p.lockPath}
  }

  ghost predicate IsUnmodified(p: Platform, tree: Tree, version: string)
  {
    && p.lockPath in tree
    && p.parseLock(tree[p.lockPath]).Some?
    && var lock := p.parseLock(tree[p.lockPath]).value;
    && lock.cliVersion == version
    && lock.skillVersion == version
    && IsDigestOf(p, lock.digest, Unlocked(p, tree))
  }

  method CheckUnmodified(p: Platform, tree: Tree, version: string) returns (ok: bool)
    requires IsPlatform(p)
    ensures ok <==> IsUnmodified(p, tree, version)
  {
    if p.lockPath !in tree {
      return false;
    }
    var lock := p.parseLock(tree[p.lockPath]);
    var digest := ManifestDigest(p, tree);
    if lock.Some? {
      OneDigest(p, lock.value.digest, digest, Unlocked(p, tree));
    }
    return lock.Some? && lock.value.cliVersion == version && lock.value.skillVersion == version && lock.value.digest == digest;
  }

  lemma OneDigest(p: Platform, d: Digest, e: Digest, tree: Tree)
    requires IsPlatform(p) && IsDigestOf(p, e, tree)
    ensures IsDigestOf(p, d, tree) <==> d == e
  {
    var others :| IsListing(p, others, tree) && e == Digest(Stream(others));
    if IsDigestOf(p, d, tree) {
      var files :| IsListing(p, files, tree) && d == Digest(Stream(files));
      ListingIsUnique(p, files, others);
    }
  }

  /** The installed tree: the bundled files and the lock over their digest. */
  function Installed(p: Platform, assets: Tree, version: string, d: Digest): Tree
  {
    assets[p.lockPath := p.lockText(Lock(version, version, d))]
  }

  /** An installation is accepted as unmodified by the same version if and only if no file but the lock was touched and
      the lock still reads as written. */
  lemma UnmodifiedMeansUntouched(p: Platform, assets: Tree, version: string, d: Digest, now: Tree)
    requires IsPlatform(p) && TreeFits(assets) && TreeFits(now)
    requires IsDigestOf(p, d, Unlocked(p, assets))
    requires p.lockPath in now && p.parseLock(now[p.lockPath]) == Some(Lock(version, version, d))
    ensures IsUnmodified(p, now, version) <==> Unlocked(p, now) == Unlocked(p, Installed(p, assets, version, d))
  {
    assert Unlocked(p, Installed(p, assets, version, d)) == Unlocked(p, assets);
    if IsDigestOf(p, d, Unlocked(p, now)) {
      DigestsTellTreesApart(p, d, Unlocked(p, assets), d, Unlocked(p, now));
    }
  }

  /** A fresh installation is unmodified. */
  lemma InstalledIsUnmodified(p: Platform, assets: Tree, version: string, d: Digest)
    requires IsPlatform(p) && IsDigestOf(p, d, Unlocked(p, assets))
    ensures IsUnmodified(p, Installed(p, assets, version, d), version)
  {
    assert Unlocked(p, Installed(p, assets, version, d)) == Unlocked(p, assets);
  }

  /** A tree passes the check of a version exactly when its lock names that version twice and records the digest of the
      very files the tree has. `assets` are the files the recorded digest was taken of. */
  lemma UnmodifiedExactly(p: Platform, assets: Tree, version: string, cli: string, skill: string, d: Digest, now: Tree)
    requires IsPlatform(p) && TreeFits(assets) && TreeFits(now) && IsDigestOf(p, d, Unlocked(p, assets))
    requires p.lockPath in now && p.parseLock(now[p.lockPath]) == Some(Lock(cli, skill, d))
    ensures IsUnmodified(p, now, version) <==>
            && cli == version && skill == version
            && forall path :: path != p.lockPath ==>
                 (path in now <==> path in assets) && (path in now ==> now[path] == assets[path])
  {
    if IsDigestOf(p, d, Unlocked(p, now)) {
      DigestsTellTreesApart(p, d, Unlocked(p, assets), d, Unlocked(p, now));
    }
    assert Unlocked(p, now) == Unlocked(p, assets) <==>
           (forall path :: path != p.lockPath ==>
              (path in now <==> path in assets) && (path in now ==> now[path] == assets[path])) by
    {
      SameBesideLock(p, now, assets);
    }
  }

  lemma SameBesideLock(p: Platform, now: Tree, assets: Tree)
    ensures Unlocked(p, now) == Unlocked(p, assets) <==>
            (forall path :: path != p.lockPath ==>
               (path in now <==> path in assets) && (path in now ==> now[path] == assets[path]))
  {
    var a, b := Unlocked(p, now), Unlocked(p, assets);
    forall path | path != p.lockPath ensures path in now <==> path in a ensures path in assets <==> path in b {
    }
  }

  /** A tree without a lock, or with one that cannot be read, is refused. */
  lemma UnlockedIsRefused(p: Platform, now: Tree, version: string)
    requires p.lockPath in now ==> p.parseLock(now[p.lockPath]) == None
    ensures !IsUnmodified(p, now, version)
  {
  }

  /** A frame is the length in eight bytes, most significant first, and then the text. */
  lemma FrameBytes(s: Bytes)
    requires |s| < 0x1_0000_0000_0000_0000
    ensures Fits(s)
    ensures Frame(s) == [|s| / 0x100_0000_0000_0000 % 256, |s| / 0x1_0000_0000_0000 % 256, |s| / 0x100_0000_0000 % 256,
                         |s| / 0x1_0000_0000 % 256, |s| / 0x100_0000 % 256, |s| / 0x1_0000 % 256, |s| / 0x100 % 256,
                         |s| % 256] + s
  {
    hide BigEndian;
    var n := |s|;
    assert Fits(s) by { EightBytes(); }
    LowFour(n, 4);
    LowFour(n / 0x1_0000_0000, 0);
    assert n / 0x1_0000_0000 / 0x100_0000 == n / 0x100_0000_0000_0000;
    assert n / 0x1_0000_0000 / 0x1_0000 == n / 0x1_0000_0000_0000;
    assert n / 0x1_0000_0000 / 0x100 == n / 0x100_0000_0000;
    BigEndianNext(0, 0);
  }

  lemma EightBytes()
    ensures Pow256(LENGTH_BYTES) == 0x1_0000_0000_0000_0000
  {
    assert Pow256(2) == 0x1_0000 && Pow256(4) == 0x1_0000_0000;
  }

  lemma LowFour(n: nat, width: nat)
    ensures BigEndian(n, width + 4) ==
            BigEndian(n / 0x1_0000_0000, width) + [n / 0x100_0000 % 256, n / 0x1_0000 % 256, n / 0x100 % 256, n % 256]
  {
    hide BigEndian;
    BigEndianNext(n, width + 3);
    BigEndianNext(n / 0x100, width + 2);
    BigEndianNext(n / 0x1_0000, width + 1);
    BigEndianNext(n / 0x100_0000, width);
    assert n / 0x100 / 256 == n / 0x1_0000 && n / 0x1_0000 / 256 == n / 0x100_0000;
    assert n / 0x100_0000 / 256 == n / 0x1_0000_0000;
  }

  lemma BigEndianNext(n: nat, width: nat)
    ensures BigEndian(n, width + 1) == BigEndian(n / 256, width) + [n % 256]
    ensures forall m: nat :: BigEndian(m, 0) == []
  {
  }

  /** The stream of a list frames the path and then the content of each file, in order. */
  lemma {:induction false} StreamOfSnoc(files: seq<File>, f: File)
    ensures Stream(files + [f]) == Stream(files) + Frame(f.path) + Frame(f.content) && Stream([]) == []
  {
    assert (files + [f])[..|files|] == files;
  }
}
