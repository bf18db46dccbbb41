/**
 * The image loop of index.js:61-76 and `downloadImage` (index.js:15-20): an
 * image's local name is the basename of its URL's pathname; it is fetched
 * only when no file of that name exists in the images directory; a failure
 * anywhere in the loop body drops that image's reference and nothing else.
 */
module Images {
  import opened Wrappers
  import opened World

  /** `p` with every trailing `/` removed. */
  function DropTrailingSlashes(p: string): (r: string)
    ensures r == [] || r[|r| - 1] != '/'
  {
    if p != [] && p[|p| - 1] == '/' then DropTrailingSlashes(p[..|p| - 1]) else p
  }

  /** The part of `p` after its last `/` (all of `p` when it has none). */
  function AfterLastSlash(p: string): (r: string)
    ensures '/' !in r
  {
    if p == [] || p[|p| - 1] == '/' then []
    else AfterLastSlash(p[..|p| - 1]) + [p[|p| - 1]]
  }

  /** POSIX `path.basename(p)`: trailing slashes are ignored, then the last segment is taken. */
  function Basename(p: string): (r: string)
    ensures '/' !in r
  {
    AfterLastSlash(DropTrailingSlashes(p))
  }

  /** The last segment of a path to a file is its basename. */
  lemma BasenameOfFile(dir: string, name: string)
    requires name != [] && '/' !in name
    ensures Basename(dir + "/" + name) == name
  {
    var p := dir + "/" + name;
    assert DropTrailingSlashes(p) == p;
    LastSegment(dir, name);
  }

  lemma {:induction false} LastSegment(dir: string, name: string)
    requires '/' !in name
    ensures AfterLastSlash(dir + "/" + name) == name
    decreases |name|
  {
    var p := dir + "/" + name;
    if name != [] {
      var init := name[..|name| - 1];
      assert p[..|p| - 1] == dir + "/" + init;
      LastSegment(dir, init);
      assert name == init + [name[|name| - 1]];
    }
  }

  /** A name without `/` is its own last segment. */
  lemma {:induction false} AfterLastSlashOfName(p: string)
    requires '/' !in p
    ensures AfterLastSlash(p) == p
    decreases |p|
  {
    if p != [] {
      var init := p[..|p| - 1];
      assert '/' !in init by {
        forall k | 0 <= k < |init| ensures init[k] != '/' {
          assert init[k] == p[k];
        }
      }
      AfterLastSlashOfName(init);
      assert p == init + [p[|p| - 1]];
    }
  }

  /** A pathname without `/` is its own basename. */
  lemma BasenameOfName(p: string)
    requires p != [] && '/' !in p
    ensures Basename(p) == p
  {
    assert DropTrailingSlashes(p) == p;
    AfterLastSlashOfName(p);
  }

  /**
   * The empty and the root pathname have the empty basename, whose local
   * path is the images directory itself.
   */
  lemma BasenameOfRoot()
    ensures Basename("") == []
    ensures Basename("/") == []
    ensures LocalPath(Basename("/")) == "images"
  {
    assert DropTrailingSlashes("/") == DropTrailingSlashes([]);
  }

  /** A trailing slash does not change the basename. */
  lemma BasenameIgnoresTrailingSlash(p: string)
    ensures Basename(p + "/") == Basename(p)
  {
    assert (p + "/")[..|p|] == p;
  }

  /** The relative path of image `name` in the document; Node's `path.join` drops an empty segment. */
  function LocalPath(name: string): string {
    if name == [] then "images" else "images/" + name
  }

  /**
   * Whether `name` exists in the images directory whose files are `names`;
   * the empty name denotes the directory itself, which exists.
   */
  predicate Present(names: set<string>, name: string) {
    name == [] || name in names
  }

  /**
   * One pass of the loop body for the image `src`: the new set of names, the
   * URL handed to the fetcher (if any), the name saved (if any) and the
   * reference appended to the document (if any).
   */
  datatype Attempt = Attempt(names: set<string>, fetched: Option<string>, saved: Option<string>, ref: Option<string>)

  function MaterializeOne(names: set<string>, src: string, o: Oracles): Attempt {
    match o.parse(src)
    case None => Attempt(names, None, None, None)
    case Some(pathname) =>
      var name := Basename(pathname);
      if Present(names, name) then Attempt(names, None, None, Some(LocalPath(name)))
      else if o.fetch(src) then Attempt(names + {name}, Some(src), Some(name), Some(LocalPath(name)))
      else Attempt(names, Some(src), None, None)
  }

  /** The whole loop: the final names, the URLs fetched, the names saved and the references, in order. */
  datatype Batch = Batch(names: set<string>, fetched: seq<string>, saved: seq<string>, refs: seq<string>)

  /** The batch `b` followed by the attempt `a`. */
  function Extend(b: Batch, a: Attempt): Batch {
    Batch(a.names, b.fetched + ToSeq(a.fetched), b.saved + ToSeq(a.saved), b.refs + ToSeq(a.ref))
  }

  function MaterializeAll(names: set<string>, srcs: seq<string>, o: Oracles): Batch
    decreases |srcs|
  {
    if srcs == [] then Batch(names, [], [], [])
    else
      var b := MaterializeAll(names, srcs[..|srcs| - 1], o);
      Extend(b, MaterializeOne(b.names, srcs[|srcs| - 1], o))
  }

  /** The loop one image further: image `j` is handled against the directory left by the images before it. */
  lemma MaterializeAllStep(names: set<string>, srcs: seq<string>, j: nat, o: Oracles)
    requires j < |srcs|
    ensures var b := MaterializeAll(names, srcs[..j], o);
      MaterializeAll(names, srcs[..j + 1], o) == Extend(b, MaterializeOne(b.names, srcs[j], o))
  {
    assert srcs[..j + 1][..j] == srcs[..j];
  }

  /**
   * An image whose URL has the root pathname is never fetched: its empty
   * name denotes the images directory, which exists, and the document refers
   * to `images`.
   */
  lemma RootImage(names: set<string>, src: string, o: Oracles)
    requires o.parse(src) == Some("/")
    ensures MaterializeOne(names, src, o) == Attempt(names, None, None, Some("images"))
  {
    BasenameOfRoot();
  }

  /** `ref` is the images directory itself or the path of a file present in it, the directory holding `names`. */
  predicate Resolves(ref: string, names: set<string>) {
    ref == "images" || (|ref| > 7 && ref[..7] == "images/" && ref[7..] in names)
  }

  /**
   * One image, the cache: a fetch is attempted exactly when the URL parses
   * and its basename is absent, and the fetcher is given the image's URL.
   */
  lemma MaterializeOneFetches(names: set<string>, src: string, o: Oracles)
    ensures var a := MaterializeOne(names, src, o);
      && (a.fetched.Some? <==> o.parse(src).Some? && !Present(names, Basename(o.parse(src).value)))
      && (a.fetched.Some? ==> a.fetched.value == src)
  {
  }

  /**
   * One image, the directory: a name is saved exactly when the fetch
   * succeeds, it is the basename and was absent, and the set of names grows
   * by that name only (a failed fetch leaves it unchanged).
   */
  lemma MaterializeOneSaves(names: set<string>, src: string, o: Oracles)
    ensures var a := MaterializeOne(names, src, o);
      && (a.saved.Some? <==> a.fetched.Some? && o.fetch(src))
      && (a.saved.Some? ==> a.saved.value == Basename(o.parse(src).value) && a.saved.value !in names)
      && a.names == names + (if a.saved.Some? then {a.saved.value} else {})
  {
  }

  /**
   * One image, the document: a reference is produced exactly when the URL
   * parses and the file is present afterwards; it is the file's local path
   * and it resolves.
   */
  lemma MaterializeOneRefers(names: set<string>, src: string, o: Oracles)
    ensures var a := MaterializeOne(names, src, o);
      && (a.ref.Some? <==> o.parse(src).Some? && Present(a.names, Basename(o.parse(src).value)))
      && (a.ref.Some? ==> a.ref.value == LocalPath(Basename(o.parse(src).value)) && Resolves(a.ref.value, a.names))
  {
    if o.parse(src).Some? {
      var name := Basename(o.parse(src).value);
      if name != [] {
        assert ("images/" + name)[..7] == "images/" && ("images/" + name)[7..] == name;
      }
    }
  }

  /**
   * The loop saves each file name at most once and never one that was
   * already present, and ends with exactly the initial names plus the saved
   * ones: the set of names never shrinks.
   */
  lemma {:induction false} MaterializeAllSaves(names: set<string>, srcs: seq<string>, o: Oracles)
    ensures var b := MaterializeAll(names, srcs, o);
      && (forall x :: x in b.names <==> x in names || x in b.saved)
      && (forall k :: 0 <= k < |b.saved| ==> b.saved[k] !in names)
      && (forall k, m :: 0 <= k < m < |b.saved| ==> b.saved[k] != b.saved[m])
    decreases |srcs|
  {
    if srcs != [] {
      var init := srcs[..|srcs| - 1];
      MaterializeAllSaves(names, init, o);
      var b := MaterializeAll(names, init, o);
      MaterializeOneSaves(b.names, srcs[|srcs| - 1], o);
      var a := MaterializeOne(b.names, srcs[|srcs| - 1], o);
      var saved := b.saved + ToSeq(a.saved);
      assert MaterializeAll(names, srcs, o) == Extend(b, a);
      assert forall x :: x in saved <==> x in b.saved || (a.saved.Some? && x == a.saved.value);
      assert a.names == b.names + (if a.saved.Some? then {a.saved.value} else {});
      assert forall x :: x in b.names <==> x in names || x in b.saved;
      assert forall x :: x in a.names <==> x in names || x in saved;
      forall k, m | 0 <= k < m < |saved| ensures saved[k] != saved[m] {
        assert saved[k] == b.saved[k];
        if m < |b.saved| {
          assert saved[m] == b.saved[m];
        } else {
          assert a.saved.Some? && saved[m] == a.saved.value;
          assert b.saved[k] in b.saved;
        }
      }
    }
  }

  /** Every reference the loop produced resolves in the final images directory. */
  lemma {:induction false} MaterializeAllResolves(names: set<string>, srcs: seq<string>, o: Oracles)
    ensures var b := MaterializeAll(names, srcs, o);
      && names <= b.names
      && (forall k :: 0 <= k < |b.refs| ==> Resolves(b.refs[k], b.names))
      && |b.refs| <= |srcs| && |b.fetched| <= |srcs|
    decreases |srcs|
  {
    if srcs != [] {
      var init := srcs[..|srcs| - 1];
      MaterializeAllResolves(names, init, o);
      var b := MaterializeAll(names, init, o);
      var src := srcs[|srcs| - 1];
      MaterializeOneSaves(b.names, src, o);
      MaterializeOneRefers(b.names, src, o);
      var a := MaterializeOne(b.names, src, o);
      forall k | 0 <= k < |b.refs| ensures Resolves(b.refs[k], a.names) {
        assert Resolves(b.refs[k], b.names);
      }
    }
  }

  /**
   * Two images whose URLs share a basename: once the first is in place (it
   * was already present or its fetch succeeded), the second is not fetched,
   * and the document references the one local file twice.
   */
  lemma SharedBasename(names: set<string>, u1: string, u2: string, o: Oracles)
    requires o.parse(u1).Some? && o.parse(u2).Some?
    requires Basename(o.parse(u1).value) == Basename(o.parse(u2).value)
    requires Present(names, Basename(o.parse(u1).value)) || o.fetch(u1)
    ensures var b := MaterializeAll(names, [u1, u2], o);
      && |b.fetched| <= 1
      && b.refs == [LocalPath(Basename(o.parse(u1).value)), LocalPath(Basename(o.parse(u1).value))]
  {
    var name := Basename(o.parse(u1).value);
    var a1 := MaterializeOne(names, u1, o);
    var a2 := MaterializeOne(a1.names, u2, o);
    assert a1.ref == Some(LocalPath(name)) && a2.ref == Some(LocalPath(name)) && a2.fetched == None by {
      assert Present(a1.names, name);
    }
    MaterializePair(names, u1, u2, o);
  }

  /** The loop over two images is the step for the first followed by the step for the second. */
  lemma MaterializePair(names: set<string>, u1: string, u2: string, o: Oracles)
    ensures var a1 := MaterializeOne(names, u1, o);
      var a2 := MaterializeOne(a1.names, u2, o);
      MaterializeAll(names, [u1, u2], o)
        == Batch(a2.names, ToSeq(a1.fetched) + ToSeq(a2.fetched), ToSeq(a1.saved) + ToSeq(a2.saved), ToSeq(a1.ref) + ToSeq(a2.ref))
  {
    var a1 := MaterializeOne(names, u1, o);
    assert [u1, u2][..1] == [u1];
    assert [u1][..0] == [];
    var e: seq<string> := [];
    assert e + ToSeq(a1.fetched) == ToSeq(a1.fetched);
    assert e + ToSeq(a1.saved) == ToSeq(a1.saved);
    assert e + ToSeq(a1.ref) == ToSeq(a1.ref);
    assert MaterializeAll(names, [u1], o) == Batch(a1.names, ToSeq(a1.fetched), ToSeq(a1.saved), ToSeq(a1.ref));
  }

  /**
   * Running the loop a second time over the same images, after a first run
   * in which every image produced a reference, fetches nothing, saves
   * nothing and yields the same references.
   */
  lemma {:induction false} RerunIsCached(names: set<string>, done: set<string>, srcs: seq<string>, o: Oracles)
    requires MaterializeAll(names, srcs, o).names <= done
    requires |MaterializeAll(names, srcs, o).refs| == |srcs|
    ensures var b := MaterializeAll(done, srcs, o);
      && b.fetched == [] && b.names == done
      && b.refs == MaterializeAll(names, srcs, o).refs
    decreases |srcs|
  {
    if srcs != [] {
      var init, src := srcs[..|srcs| - 1], srcs[|srcs| - 1];
      var b1 := MaterializeAll(names, init, o);
      MaterializeAllResolves(names, init, o);
      MaterializeOneSaves(b1.names, src, o);
      MaterializeOneRefers(b1.names, src, o);
      RerunIsCached(names, done, init, o);
    }
  }

  /** When no image yields a reference, the set of names is unchanged and nothing is referenced. */
  lemma {:induction false} AllImagesFail(names: set<string>, srcs: seq<string>, o: Oracles)
    requires forall k :: 0 <= k < |srcs| ==>
      o.parse(srcs[k]).None? || (!Present(names, Basename(o.parse(srcs[k]).value)) && !o.fetch(srcs[k]))
    ensures MaterializeAll(names, srcs, o).refs == []
    ensures MaterializeAll(names, srcs, o).names == names
    decreases |srcs|
  {
    if srcs != [] {
      AllImagesFail(names, srcs[..|srcs| - 1], o);
    }
  }
}
