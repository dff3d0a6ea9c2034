/**
 * The catalog records of the manga API and the values derived from them:
 * the image URLs of a chapter and the cover, genre and author fields of a manga.
 */
module Models {
  import opened Wrappers

  datatype Category = Category(id: string, name: string, slug: string)

  /** One chapter entry of a server listing; `chapterApiData` is the chapter's URL. */
  datatype ChapterData = ChapterData(
    filename: string,
    chapterName: string,
    chapterTitle: Option<string>,
    chapterApiData: string)

  datatype ChapterServer = ChapterServer(serverName: string, serverData: seq<ChapterData>)

  datatype Manga = Manga(
    id: string,
    name: string,
    slug: string,
    originName: Option<seq<string>>,
    status: Option<string>,
    thumbUrl: Option<string>,
    author: Option<seq<string>>,
    category: Option<seq<Category>>,
    content: Option<string>,
    chapters: Option<seq<ChapterServer>>)

  /** One page image of a chapter: its page number and its file name on the CDN. */
  datatype ChapterImage = ChapterImage(imagePage: int, imageFile: string)

  datatype ChapterItem = ChapterItem(
    id: Option<string>,
    comicName: Option<string>,
    chapterName: Option<string>,
    chapterTitle: Option<string>,
    chapterPath: Option<string>,
    chapterImage: Option<seq<ChapterImage>>)

  /** The fixed CDN directory that holds every cover image. */
  const CoverPrefix: string := "https://img.otruyenapi.com/uploads/comics/"

  /** The separator `authorName` puts between authors. */
  const AuthorSeparator: string := ", "

  // ---------------------------------------------------------------------------
  // Trimming

  /** `s.trimEnd(c)`: `s` without its trailing run of `c`. */
  function TrimEnd(s: string, c: char): (r: string)
    ensures r <= s
    ensures |r| == 0 || r[|r| - 1] != c
    ensures forall i :: |r| <= i < |s| ==> s[i] == c
  {
    if |s| > 0 && s[|s| - 1] == c then TrimEnd(s[..|s| - 1], c) else s
  }

  /** `s.trimStart(c)`: `s` without its leading run of `c`. */
  function TrimStart(s: string, c: char): (r: string)
    ensures |r| <= |s| && r == s[|s| - |r|..]
    ensures |r| == 0 || r[0] != c
    ensures forall i :: 0 <= i < |s| - |r| ==> s[i] == c
  {
    if |s| > 0 && s[0] == c then TrimStart(s[1..], c) else s
  }

  /** `n` copies of `c`. */
  function Repeat(c: char, n: nat): (r: string)
    ensures |r| == n && forall i :: 0 <= i < n ==> r[i] == c
  {
    if n == 0 then [] else [c] + Repeat(c, n - 1)
  }

  /** Extra trailing copies of `c` do not change what `TrimEnd` gives. */
  lemma {:induction false} TrimEndIgnoresExtra(s: string, c: char, n: nat)
    ensures TrimEnd(s + Repeat(c, n), c) == TrimEnd(s, c)
  {
    if n > 0 {
      var t := s + Repeat(c, n);
      assert t[..|t| - 1] == s + Repeat(c, n - 1);
      TrimEndIgnoresExtra(s, c, n - 1);
    } else {
      assert s + Repeat(c, n) == s;
    }
  }

  /** `n` copies of `c` before `s`: a `c` first, then `n - 1` copies before `s`. */
  lemma RepeatFront(c: char, n: nat, s: string)
    requires n > 0
    ensures |Repeat(c, n) + s| > 0 && (Repeat(c, n) + s)[0] == c
    ensures (Repeat(c, n) + s)[1..] == Repeat(c, n - 1) + s
  {
    assert Repeat(c, n) == [c] + Repeat(c, n - 1);
  }

  /** Extra leading copies of `c` do not change what `TrimStart` gives. */
  lemma {:induction false} TrimStartIgnoresExtra(s: string, c: char, n: nat)
    ensures TrimStart(Repeat(c, n) + s, c) == TrimStart(s, c)
  {
    if n > 0 {
      RepeatFront(c, n, s);
      TrimStartIgnoresExtra(s, c, n - 1);
    } else {
      assert Repeat(c, n) == [];
      assert Repeat(c, n) + s == s;
    }
  }

  // ---------------------------------------------------------------------------
  // Stable sort by page number (`sortedBy { it.imagePage }`)

  ghost predicate SortedByPage(s: seq<ChapterImage>)
  {
    forall i, j :: 0 <= i < j < |s| ==> s[i].imagePage <= s[j].imagePage
  }

  /** The images of `s` whose page number is `p`, in the order of `s`. */
  function PageFilter(s: seq<ChapterImage>, p: int): (r: seq<ChapterImage>)
    ensures |r| <= |s|
  {
    if s == [] then []
    else (if s[0].imagePage == p then [s[0]] else []) + PageFilter(s[1..], p)
  }

  /**
   * Inserts `x` in front of the first element whose page is not smaller,
   * so that `x` precedes every element with the same page.
   */
  function InsertByPage(x: ChapterImage, s: seq<ChapterImage>): (r: seq<ChapterImage>)
    ensures |r| == |s| + 1
    ensures multiset(r) == multiset(s) + multiset{x}
  {
    if s == [] || x.imagePage <= s[0].imagePage then [x] + s
    else
      assert s == [s[0]] + s[1..];
      [s[0]] + InsertByPage(x, s[1..])
  }

  /** Inserting adds `x` and nothing else. */
  lemma {:induction false} InsertByPageElements(x: ChapterImage, s: seq<ChapterImage>)
    ensures forall y :: y in InsertByPage(x, s) ==> y == x || y in s
  {
    if s != [] && x.imagePage > s[0].imagePage {
      InsertByPageElements(x, s[1..]);
    }
  }

  /** A sorted sequence stays sorted behind an element no later than any of it. */
  lemma SortedCons(y: ChapterImage, t: seq<ChapterImage>)
    requires SortedByPage(t)
    requires forall k :: 0 <= k < |t| ==> y.imagePage <= t[k].imagePage
    ensures SortedByPage([y] + t)
  {
    var r := [y] + t;
    forall i, j | 0 <= i < j < |r| ensures r[i].imagePage <= r[j].imagePage {
      assert r[j] == t[j - 1];
      if i > 0 {
        assert r[i] == t[i - 1];
      }
    }
  }

  /** Inserting into a sorted sequence keeps it sorted. */
  lemma {:induction false} InsertByPageSorted(x: ChapterImage, s: seq<ChapterImage>)
    requires SortedByPage(s)
    ensures SortedByPage(InsertByPage(x, s))
  {
    if s == [] || x.imagePage <= s[0].imagePage {
      SortedCons(x, s);
    } else {
      var t := InsertByPage(x, s[1..]);
      InsertByPageSorted(x, s[1..]);
      InsertByPageElements(x, s[1..]);
      forall k | 0 <= k < |t| ensures s[0].imagePage <= t[k].imagePage {
        assert t[k] in t;
        if t[k] != x {
          var m :| 0 <= m < |s[1..]| && s[1..][m] == t[k];
          assert s[m + 1] == t[k];
        }
      }
      SortedCons(s[0], t);
    }
  }

  /** Kotlin's `sortedBy { it.imagePage }`, a stable sort. */
  function SortByPage(s: seq<ChapterImage>): (r: seq<ChapterImage>)
    ensures |r| == |s|
    ensures multiset(r) == multiset(s)
  {
    if s == [] then []
    else
      assert s == [s[0]] + s[1..];
      InsertByPage(s[0], SortByPage(s[1..]))
  }

  /** The result of `SortByPage` is in ascending page order. */
  lemma {:induction false} SortByPageSorted(s: seq<ChapterImage>)
    ensures SortedByPage(SortByPage(s))
  {
    if s != [] {
      SortByPageSorted(s[1..]);
      InsertByPageSorted(s[0], SortByPage(s[1..]));
    }
  }

  /** Filtering a sequence with one element in front. */
  lemma PageFilterCons(y: ChapterImage, t: seq<ChapterImage>, p: int)
    ensures PageFilter([y] + t, p) == (if y.imagePage == p then [y] else []) + PageFilter(t, p)
  {
    var r := [y] + t;
    assert r[0] == y && r[1..] == t;
  }

  lemma {:induction false} InsertByPageFilter(x: ChapterImage, s: seq<ChapterImage>, p: int)
    ensures PageFilter(InsertByPage(x, s), p)
         == (if x.imagePage == p then [x] else []) + PageFilter(s, p)
  {
    if s == [] || x.imagePage <= s[0].imagePage {
      PageFilterCons(x, s, p);
    } else {
      var t := InsertByPage(x, s[1..]);
      InsertByPageFilter(x, s[1..], p);
      PageFilterCons(s[0], t, p);
      PageFilterCons(s[0], s[1..], p);
      assert [s[0]] + s[1..] == s;
      if x.imagePage == p {
        assert s[0].imagePage != p;
      } else {
        assert [s[0]] + t == InsertByPage(x, s);
      }
    }
  }

  /** Stability: the images of each page keep their input order. */
  lemma {:induction false} SortByPageStable(s: seq<ChapterImage>, p: int)
    ensures PageFilter(SortByPage(s), p) == PageFilter(s, p)
  {
    if s != [] {
      SortByPageStable(s[1..], p);
      InsertByPageFilter(s[0], SortByPage(s[1..]), p);
    }
  }

  // ---------------------------------------------------------------------------
  // ChapterItem.getImageUrls

  /** The URL of one page: base, path and file joined by slashes. */
  function PageUrl(base: string, path: string, file: string): (url: string)
    ensures |url| == |base| + |path| + |file| + 2
    ensures url[|base|] == '/' && url[|base| + |path| + 1] == '/'
    ensures forall k :: 0 <= k < |base| ==> url[k] == base[k]
    ensures forall k :: 0 <= k < |path| ==> url[|base| + 1 + k] == path[k]
    ensures url[|base| + |path| + 2..] == file
  {
    base + "/" + path + "/" + file
  }

  /** One URL per image, in the order of `images`. */
  function PageUrls(base: string, path: string, images: seq<ChapterImage>): (r: seq<string>)
    ensures |r| == |images|
    ensures forall i :: 0 <= i < |r| ==> r[i] == PageUrl(base, path, images[i].imageFile)
  {
    if images == [] then []
    else [PageUrl(base, path, images[0].imageFile)] + PageUrls(base, path, images[1..])
  }

  /**
   * `getImageUrls(domainCdn)`: empty when the CDN domain, the chapter path or
   * the image list is missing; otherwise one URL per image, in page order.
   */
  function ImageUrls(item: ChapterItem, domainCdn: Option<string>): (r: seq<string>)
    ensures domainCdn.None? || item.chapterPath.None? || item.chapterImage.None? ==> r == []
    ensures domainCdn.Some? && item.chapterPath.Some? && item.chapterImage.Some? ==>
      |r| == |item.chapterImage.value|
  {
    if domainCdn.None? || item.chapterPath.None? || item.chapterImage.None? then []
    else
      PageUrls(TrimEnd(domainCdn.value, '/'), TrimStart(item.chapterPath.value, '/'),
               SortByPage(item.chapterImage.value))
  }

  /**
   * What `sortedBy { it.imagePage }` promises: a permutation of the input, in
   * ascending page order, with the images of each page in input order.
   */
  lemma SortByPageCorrect(images: seq<ChapterImage>)
    ensures multiset(SortByPage(images)) == multiset(images)
    ensures SortedByPage(SortByPage(images))
    ensures forall p :: PageFilter(SortByPage(images), p) == PageFilter(images, p)
  {
    SortByPageSorted(images);
    forall p ensures PageFilter(SortByPage(images), p) == PageFilter(images, p) {
      SortByPageStable(images, p);
    }
  }

  /**
   * The i-th URL is the trimmed domain, a slash, the trimmed path, a slash and
   * the file of the i-th image in page order; the slash after the domain is
   * not preceded by another slash, nor followed by one when the path is not empty.
   */
  lemma ImageUrlsAt(item: ChapterItem, cdn: string, path: string, images: seq<ChapterImage>, i: int)
    requires item.chapterPath == Some(path) && item.chapterImage == Some(images)
    requires 0 <= i < |images|
    ensures var base := TrimEnd(cdn, '/');
            var rest := TrimStart(path, '/');
            var url := ImageUrls(item, Some(cdn))[i];
            && url == PageUrl(base, rest, SortByPage(images)[i].imageFile)
            && url[|base|] == '/'
            && (|base| > 0 ==> url[|base| - 1] != '/')
            && (|rest| > 0 ==> url[|base| + 1] != '/')
  {
    var base := TrimEnd(cdn, '/');
    var rest := TrimStart(path, '/');
    var url := PageUrl(base, rest, SortByPage(images)[i].imageFile);
    var urls := ImageUrls(item, Some(cdn));
    assert urls == PageUrls(base, rest, SortByPage(images));
    assert urls[i] == url;
    assert |base| > 0 ==> url[|base| - 1] == base[|base| - 1];
    assert |rest| > 0 ==> url[|base| + 1] == rest[0];
  }

  /** The slash before the file has no slash beside it unless the path ends or the file starts with one. */
  lemma PageUrlSecondJoin(base: string, path: string, file: string)
    ensures var url := PageUrl(base, path, file);
            && (|path| > 0 && path[|path| - 1] != '/' ==> url[|base| + |path|] != '/')
            && (|file| > 0 && file[0] != '/' ==> url[|base| + |path| + 2] != '/')
  {
    var url := PageUrl(base, path, file);
    assert |path| > 0 ==> url[|base| + |path|] == path[|path| - 1];
    assert |file| > 0 ==> url[|base| + |path| + 2..][0] == file[0];
  }

  /**
   * In every URL of `getImageUrls`, the slash before the file is doubled by
   * neither neighbour when the trimmed path does not end in a slash and the
   * file does not start with one.
   */
  lemma ImageUrlsSecondJoin(item: ChapterItem, cdn: string, path: string, images: seq<ChapterImage>, i: int)
    requires item.chapterPath == Some(path) && item.chapterImage == Some(images)
    requires 0 <= i < |images|
    ensures var base := TrimEnd(cdn, '/');
            var rest := TrimStart(path, '/');
            var file := SortByPage(images)[i].imageFile;
            var url := ImageUrls(item, Some(cdn))[i];
            && url[|base| + |rest| + 1] == '/'
            && (|rest| > 0 && rest[|rest| - 1] != '/' ==> url[|base| + |rest|] != '/')
            && (|file| > 0 && file[0] != '/' ==> url[|base| + |rest| + 2] != '/')
  {
    ImageUrlsAt(item, cdn, path, images, i);
    PageUrlSecondJoin(TrimEnd(cdn, '/'), TrimStart(path, '/'), SortByPage(images)[i].imageFile);
  }

  /** Only the start of the path is trimmed: a path ending in a slash gives a doubled slash. */
  lemma PathEndingInSlashDoublesSlash()
    ensures ImageUrls(ChapterItem(None, None, None, None, Some("x/"), Some([ChapterImage(1, "f")])), Some("b"))
         == ["b/x//f"]
  {
    var images := [ChapterImage(1, "f")];
    assert TrimEnd("b", '/') == "b";
    assert TrimStart("x/", '/') == "x/";
    assert images[1..] == [];
    assert SortByPage(images) == InsertByPage(images[0], []) == images;
    assert PageUrls("b", "x/", images) == [PageUrl("b", "x/", "f")] + PageUrls("b", "x/", images[1..]);
    assert PageUrl("b", "x/", "f") == "b/x//f";
  }

  /** Extra trailing slashes on the domain or leading slashes on the path change nothing. */
  lemma {:induction false} ImageUrlsIgnoreExtraSlashes(item: ChapterItem, cdn: string, m: nat, n: nat)
    requires item.chapterPath.Some?
    ensures var item' := item.(chapterPath := Some(Repeat('/', n) + item.chapterPath.value));
            ImageUrls(item', Some(cdn + Repeat('/', m))) == ImageUrls(item, Some(cdn))
  {
    TrimEndIgnoresExtra(cdn, '/', m);
    TrimStartIgnoresExtra(item.chapterPath.value, '/', n);
  }

  // ---------------------------------------------------------------------------
  // Derived manga fields

  /** `cover`: the thumbnail file name placed under the fixed CDN prefix. */
  function Cover(m: Manga): (r: Option<string>)
    ensures r.None? <==> m.thumbUrl.None?
    ensures r.Some? ==> CoverPrefix <= r.value && r.value[|CoverPrefix|..] == m.thumbUrl.value
  {
    match m.thumbUrl
    case None => None
    case Some(t) => Some(CoverPrefix + t)
  }

  /** `genres`: the category names, one per category, in order. */
  function Genres(m: Manga): (r: Option<seq<string>>)
    ensures r.None? <==> m.category.None?
    ensures r.Some? ==>
      && |r.value| == |m.category.value|
      && forall i :: 0 <= i < |r.value| ==> r.value[i] == m.category.value[i].name
  {
    match m.category
    case None => None
    case Some(cs) => Some(seq(|cs|, i requires 0 <= i < |cs| => cs[i].name))
  }

  /** Total length of the strings of `xs`. */
  function TotalLength(xs: seq<string>): nat
  {
    if xs == [] then 0 else |xs[0]| + TotalLength(xs[1..])
  }

  /** `joinToString(sep)`. */
  function Join(xs: seq<string>, sep: string): (r: string)
    ensures |xs| == 0 ==> r == ""
    ensures |xs| > 0 ==> xs[0] <= r && |r| == TotalLength(xs) + |sep| * (|xs| - 1)
  {
    if |xs| == 0 then ""
    else if |xs| == 1 then xs[0]
    else xs[0] + sep + Join(xs[1..], sep)
  }

  /** Appending an author appends the separator and that author. */
  lemma {:induction false} JoinSnoc(xs: seq<string>, y: string, sep: string)
    requires |xs| > 0
    ensures Join(xs + [y], sep) == Join(xs, sep) + sep + y
  {
    var t := xs + [y];
    if |xs| == 1 {
      assert t[1..] == [y];
    } else {
      assert t[1..] == xs[1..] + [y];
      JoinSnoc(xs[1..], y, sep);
    }
  }

  /** `authorName`: the authors joined with ", ", or null when there is no author list. */
  function AuthorName(m: Manga): (r: Option<string>)
    ensures r.None? <==> m.author.None?
    ensures r.Some? && |m.author.value| > 0 ==>
      m.author.value[0] <= r.value
      && |r.value| == TotalLength(m.author.value) + |AuthorSeparator| * (|m.author.value| - 1)
  {
    match m.author
    case None => None
    case Some(a) => Some(Join(a, AuthorSeparator))
  }
}
