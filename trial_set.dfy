/**
 * The trial-set builder of the survey script: it walks the three parallel
 * image trees (reference images, DepthPro depth maps, EndoDac depth maps)
 * category by category and keeps every file name that is a regular file in
 * all three trees under the same category.
 *
 * The disk is an input: `FileSystem.listing` is what `os.listdir` returns
 * for each directory it can list, and `FileSystem.files` is the set of paths
 * for which `os.path.isfile` holds.
 */
module TrialSet {
  import opened Wrappers

  /** A path as the sequence of its components; `os.path.join(d, f)` appends `f`. */
  type Path = seq<string>

  function Join(dir: Path, name: string): Path {
    dir + [name]
  }

  const BaseDir: Path := ["QT_assessment"]
  const ImageDir: Path := Join(BaseDir, "images")
  const DepthProDir: Path := Join(BaseDir, "depthpro")
  const EndoDacDir: Path := Join(BaseDir, "endodac")

  /** The depth categories, one sub-folder each, in the order they are walked. */
  const DepthCategories: seq<string> := ["high", "mid", "low"]

  datatype FileSystem = FileSystem(listing: map<Path, seq<string>>, files: set<Path>)

  /** `os.listdir` raises when a directory does not exist; nothing catches it. */
  datatype FsError = DirectoryNotFound(dir: Path)

  /** The tuple `(img_path, dp_path, ed_path, cat, f)` the builder collects. */
  datatype Triplet = Triplet(imgPath: Path, dpPath: Path, edPath: Path, cat: string, filename: string)

  /** The three paths of file `f` in category `cat`, and the tuple built from them. */
  function TripletFor(cat: string, f: string): Triplet {
    Triplet(Join(Join(ImageDir, cat), f), Join(Join(DepthProDir, cat), f),
            Join(Join(EndoDacDir, cat), f), cat, f)
  }

  /** `f` is a regular file under `<tree>/<cat>` in all three trees. */
  predicate InAllTrees(fs: FileSystem, cat: string, f: string) {
    var t := TripletFor(cat, f);
    t.imgPath in fs.files && t.dpPath in fs.files && t.edPath in fs.files
  }

  /** The listing of `images/<cat>`, empty when it cannot be listed. */
  function ListingOf(fs: FileSystem, cat: string): seq<string> {
    var dir := Join(ImageDir, cat);
    if dir in fs.listing then fs.listing[dir] else []
  }

  predicate Listable(fs: FileSystem, cat: string) {
    Join(ImageDir, cat) in fs.listing
  }

  /** The tuples kept from the listed names of one category, in listing order. */
  function KeptIn(fs: FileSystem, cat: string, names: seq<string>): seq<Triplet>
    decreases |names|
  {
    if names == [] then []
    else
      var f := names[|names| - 1];
      KeptIn(fs, cat, names[..|names| - 1]) + (if InAllTrees(fs, cat, f) then [TripletFor(cat, f)] else [])
  }

  /** The tuples kept from the categories `cats`, category after category. */
  function Matched(fs: FileSystem, cats: seq<string>): seq<Triplet>
    decreases |cats|
  {
    if cats == [] then [] else KeptIn(fs, cats[0], ListingOf(fs, cats[0])) + Matched(fs, cats[1..])
  }

  /**
   * What the builder returns after having collected `acc` and with the
   * categories `cats` still to walk: the first category whose image
   * directory cannot be listed aborts the whole call.
   */
  function CollectFrom(fs: FileSystem, cats: seq<string>, acc: seq<Triplet>): Result<seq<Triplet>, FsError>
    decreases |cats|
  {
    if cats == [] then Success(acc)
    else if !Listable(fs, cats[0]) then Failure(DirectoryNotFound(Join(ImageDir, cats[0])))
    else CollectFrom(fs, cats[1..], acc + KeptIn(fs, cats[0], ListingOf(fs, cats[0])))
  }

  function Collected(fs: FileSystem): Result<seq<Triplet>, FsError> {
    CollectFrom(fs, DepthCategories, [])
  }

  /** `collect_image_triplets`: two nested loops appending to one list. */
  method CollectImageTriplets(fs: FileSystem) returns (r: Result<seq<Triplet>, FsError>)
    ensures r == Collected(fs)
  {
    var triplets: seq<Triplet> := [];
    for i := 0 to |DepthCategories|
      invariant CollectFrom(fs, DepthCategories[i..], triplets) == Collected(fs)
    {
      var cat := DepthCategories[i];
      var catImgDir := Join(ImageDir, cat);
      var catDpDir := Join(DepthProDir, cat);
      var catEdDir := Join(EndoDacDir, cat);
      if catImgDir !in fs.listing {
        return Failure(DirectoryNotFound(catImgDir));
      }
      var filesInCat := fs.listing[catImgDir];
      ghost var before := triplets;
      for j := 0 to |filesInCat|
        invariant triplets == before + KeptIn(fs, cat, filesInCat[..j])
      {
        var f := filesInCat[j];
        var imgPath := Join(catImgDir, f);
        var dpPath := Join(catDpDir, f);
        var edPath := Join(catEdDir, f);
        assert filesInCat[..j + 1][..j] == filesInCat[..j];
        if imgPath in fs.files && dpPath in fs.files && edPath in fs.files {
          triplets := triplets + [Triplet(imgPath, dpPath, edPath, cat, f)];
        }
      }
      assert filesInCat[..|filesInCat|] == filesInCat;
      assert DepthCategories[i..][1..] == DepthCategories[i + 1..];
    }
    r := Success(triplets);
  }

  /** The tuples kept from one listing are exactly the well-built tuples of listed names present in all three trees. */
  lemma {:induction false} KeptInMembers(fs: FileSystem, cat: string, names: seq<string>, t: Triplet)
    ensures t in KeptIn(fs, cat, names) <==>
              t.cat == cat && t == TripletFor(cat, t.filename) && t.filename in names && InAllTrees(fs, cat, t.filename)
    decreases |names|
  {
    if names != [] {
      var init := names[..|names| - 1];
      KeptInMembers(fs, cat, init, t);
      assert names == init + [names[|names| - 1]];
    }
  }

  /** Appending names to a listing appends their kept tuples: the listing order is kept. */
  lemma {:induction false} KeptInAppend(fs: FileSystem, cat: string, a: seq<string>, b: seq<string>)
    ensures KeptIn(fs, cat, a + b) == KeptIn(fs, cat, a) + KeptIn(fs, cat, b)
    decreases |b|
  {
    if b == [] {
      assert a + b == a;
    } else {
      var b' := b[..|b| - 1];
      assert (a + b)[..|a + b| - 1] == a + b';
      KeptInAppend(fs, cat, a, b');
    }
  }

  lemma {:induction false} MatchedMembers(fs: FileSystem, cats: seq<string>, t: Triplet)
    ensures t in Matched(fs, cats) <==>
              t.cat in cats && t == TripletFor(t.cat, t.filename) &&
              t.filename in ListingOf(fs, t.cat) && InAllTrees(fs, t.cat, t.filename)
    decreases |cats|
  {
    if cats != [] {
      KeptInMembers(fs, cats[0], ListingOf(fs, cats[0]), t);
      MatchedMembers(fs, cats[1..], t);
      assert t.cat in cats <==> t.cat == cats[0] || t.cat in cats[1..];
    }
  }

  /** Walking two runs of categories one after the other concatenates their tuples. */
  lemma {:induction false} MatchedAppend(fs: FileSystem, c1: seq<string>, c2: seq<string>)
    ensures Matched(fs, c1 + c2) == Matched(fs, c1) + Matched(fs, c2)
    decreases |c1|
  {
    if c1 == [] {
      assert c1 + c2 == c2;
    } else {
      assert (c1 + c2)[1..] == c1[1..] + c2;
      MatchedAppend(fs, c1[1..], c2);
    }
  }

  /**
   * The builder succeeds exactly when every remaining category directory can
   * be listed, and then returns what it had plus the matched tuples; otherwise
   * it fails on the first directory that cannot be listed.
   */
  lemma {:induction false} CollectFromOutcome(fs: FileSystem, cats: seq<string>, acc: seq<Triplet>)
    ensures CollectFrom(fs, cats, acc).Success? <==> forall k :: 0 <= k < |cats| ==> Listable(fs, cats[k])
    ensures CollectFrom(fs, cats, acc).Success? ==> CollectFrom(fs, cats, acc).value == acc + Matched(fs, cats)
    ensures CollectFrom(fs, cats, acc).Failure? ==>
              exists k :: 0 <= k < |cats| && !Listable(fs, cats[k]) && (forall m :: 0 <= m < k ==> Listable(fs, cats[m])) &&
                CollectFrom(fs, cats, acc).error == DirectoryNotFound(Join(ImageDir, cats[k]))
    decreases |cats|
  {
    if cats != [] && Listable(fs, cats[0]) {
      var acc' := acc + KeptIn(fs, cats[0], ListingOf(fs, cats[0]));
      CollectFromOutcome(fs, cats[1..], acc');
      assert forall k :: 0 <= k < |cats[1..]| ==> cats[1..][k] == cats[k + 1];
      if CollectFrom(fs, cats, acc).Success? {
        assert acc' + Matched(fs, cats[1..]) == acc + Matched(fs, cats);
      } else {
        var k :| 0 <= k < |cats[1..]| && !Listable(fs, cats[1..][k]) && (forall m :: 0 <= m < k ==> Listable(fs, cats[1..][m])) &&
                 CollectFrom(fs, cats[1..], acc').error == DirectoryNotFound(Join(ImageDir, cats[1..][k]));
        assert !Listable(fs, cats[k + 1]) && forall m :: 0 <= m < k + 1 ==> Listable(fs, cats[m]);
      }
    }
  }

  /**
   * Soundness and completeness of `collect_image_triplets`: a tuple is
   * returned exactly when it is the tuple of a file listed under
   * `images/<cat>` for one of the categories and that file is a regular file
   * in all three trees; the paths and the `cat`, `f` fields agree.
   */
  lemma CollectedMembers(fs: FileSystem, ts: seq<Triplet>, t: Triplet)
    requires Collected(fs) == Success(ts)
    ensures t in ts <==>
              t.cat in DepthCategories && t == TripletFor(t.cat, t.filename) &&
              t.filename in ListingOf(fs, t.cat) && InAllTrees(fs, t.cat, t.filename)
  {
    CollectFromOutcome(fs, DepthCategories, []);
    assert ts == Matched(fs, DepthCategories);
    MatchedMembers(fs, DepthCategories, t);
  }

  /** The builder fails only when an image category directory cannot be listed, and then names the first such directory. */
  lemma CollectedFailure(fs: FileSystem)
    ensures Collected(fs).Success? <==> Listable(fs, "high") && Listable(fs, "mid") && Listable(fs, "low")
    ensures Collected(fs).Failure? ==>
              Collected(fs).error == DirectoryNotFound(Join(ImageDir, if !Listable(fs, "high") then "high"
                                                                     else if !Listable(fs, "mid") then "mid" else "low"))
  {
    CollectFromOutcome(fs, DepthCategories, []);
    if Collected(fs).Failure? {
      var k :| 0 <= k < 3 && !Listable(fs, DepthCategories[k]) && (forall m :: 0 <= m < k ==> Listable(fs, DepthCategories[m])) &&
               Collected(fs).error == DirectoryNotFound(Join(ImageDir, DepthCategories[k]));
      assert k == 0 || Listable(fs, DepthCategories[0]);
      assert k <= 1 || Listable(fs, DepthCategories[1]);
    } else {
      assert forall k :: 0 <= k < 3 ==> Listable(fs, DepthCategories[k]);
    }
  }

  /** A listed file is kept exactly when it exists in all three trees; otherwise it is dropped without an error. */
  lemma ListedFileKeptIffInAllTrees(fs: FileSystem, ts: seq<Triplet>, cat: string, f: string)
    requires Collected(fs) == Success(ts)
    requires cat in DepthCategories && f in ListingOf(fs, cat)
    ensures TripletFor(cat, f) in ts <==> InAllTrees(fs, cat, f)
  {
    CollectedMembers(fs, ts, TripletFor(cat, f));
  }

  /** Position of a category in the walk order high, mid, low. */
  function Rank(cat: string): nat {
    if cat == "high" then 0 else if cat == "mid" then 1 else 2
  }

  /** The kept tuples of one category all carry that category. */
  function KeptFor(fs: FileSystem, cat: string): (ts: seq<Triplet>)
    ensures forall t :: t in ts ==> t.cat == cat
  {
    var ts := KeptIn(fs, cat, ListingOf(fs, cat));
    forall t | t in ts ensures t.cat == cat {
      KeptInMembers(fs, cat, ListingOf(fs, cat), t);
    }
    ts
  }

  /** A successful build is the high tuples, then the mid ones, then the low ones. */
  lemma CollectedParts(fs: FileSystem, ts: seq<Triplet>)
    requires Collected(fs) == Success(ts)
    ensures ts == KeptFor(fs, "high") + KeptFor(fs, "mid") + KeptFor(fs, "low")
  {
    CollectFromOutcome(fs, DepthCategories, []);
    assert Matched(fs, DepthCategories[2..]) == KeptFor(fs, "low");
    assert Matched(fs, DepthCategories[1..]) == KeptFor(fs, "mid") + KeptFor(fs, "low");
  }

  /** The rank of the category at position `k` of three concatenated parts is the part's number. */
  lemma RankAt(h: seq<Triplet>, m: seq<Triplet>, l: seq<Triplet>, k: nat)
    requires forall t :: t in h ==> t.cat == "high"
    requires forall t :: t in m ==> t.cat == "mid"
    requires forall t :: t in l ==> t.cat == "low"
    requires k < |h + m + l|
    ensures Rank((h + m + l)[k].cat) == if k < |h| then 0 else if k < |h| + |m| then 1 else 2
  {
    if k < |h| {
      assert (h + m + l)[k] == h[k];
    } else if k < |h| + |m| {
      assert (h + m + l)[k] == m[k - |h|];
    } else {
      assert (h + m + l)[k] == l[k - |h| - |m|];
    }
  }

  /** The returned tuples come category by category, in the order high, mid, low. */
  lemma CollectedCategoryOrder(fs: FileSystem, ts: seq<Triplet>, i: nat, j: nat)
    requires Collected(fs) == Success(ts)
    requires i <= j < |ts|
    ensures Rank(ts[i].cat) <= Rank(ts[j].cat)
  {
    CollectedParts(fs, ts);
    var h, m, l := KeptFor(fs, "high"), KeptFor(fs, "mid"), KeptFor(fs, "low");
    RankAt(h, m, l, i);
    RankAt(h, m, l, j);
  }
}
