/**
 * Offline downloads: the cancellation flags and the set of running
 * downloads, the page loop of a chapter download, and the cascading deletes
 * of chapters and manga. The two local tables are maps keyed by primary
 * key, the files on disk are a set of page files, and the image loader is an
 * oracle that tells, page by page, whether a fetch succeeds, fails or throws.
 */
module Downloads {
  import opened Wrappers
  import Models

  datatype DownloadedManga = DownloadedManga(
    mangaId: string, title: string, slug: string, coverUrl: string,
    author: Option<string>, lastDownloaded: int)

  /** `chapterNumber` is carried along and never inspected. */
  datatype DownloadedChapter = DownloadedChapter(
    chapterId: string, mangaId: string, chapterTitle: string, chapterNumber: real,
    downloadDate: int, imagePaths: seq<PageFile>)

  /** The file `manga/<mangaId>/<chapterId>/page_<index>.jpg`, which stands for its absolute path. */
  datatype PageFile = PageFile(mangaId: string, chapterId: string, index: nat)

  /** What the image loader does with one page: a bitmap, an error result, or an exception. */
  datatype Fetch = Fetched | FetchFailed | FetchThrew

  /** How a download run ends: the chapter stored, stopped by cancellation, or stopped by an exception. */
  datatype DownloadEnd = Completed | Cancelled | Failed

  /** The manga record a first download of one of its chapters stores. */
  function NewMangaRecord(manga: Models.Manga, now: int): DownloadedManga
  {
    DownloadedManga(manga.id, manga.name, manga.slug, Models.Cover(manga).GetOr(""),
      Models.AuthorName(manga), now)
  }

  /** The page at `index` throws: it is not on disk and its fetch throws. */
  ghost predicate Throws(files0: set<PageFile>, fetch: nat -> Fetch, m: string, c: string, index: nat)
  {
    PageFile(m, c, index) !in files0 && fetch(index) == FetchThrew
  }

  /** The run gets past the first `k` pages: no cancellation check and no page among them stops it. */
  ghost predicate RunsThrough(files0: set<PageFile>, fetch: nat -> Fetch, cancelled: nat -> bool,
                              m: string, c: string, k: nat)
  {
    forall j: nat :: j < k ==> !cancelled(j) && !Throws(files0, fetch, m, c, j)
  }

  /** The index of the page check at which the run stops, or `n` when it gets past every page. */
  ghost function StopIndex(files0: set<PageFile>, fetch: nat -> Fetch, cancelled: nat -> bool,
                           m: string, c: string, k: nat, n: nat): (s: nat)
    requires k <= n
    ensures k <= s <= n
    decreases n - k
  {
    if k == n then n
    else if cancelled(k) || Throws(files0, fetch, m, c, k) then k
    else StopIndex(files0, fetch, cancelled, m, c, k + 1, n)
  }

  lemma {:induction false} StopIndexAt(files0: set<PageFile>, fetch: nat -> Fetch, cancelled: nat -> bool,
                                      m: string, c: string, k: nat, i: nat, n: nat)
    requires k <= i <= n
    requires forall j: nat :: k <= j < i ==> !cancelled(j) && !Throws(files0, fetch, m, c, j)
    requires i == n || cancelled(i) || Throws(files0, fetch, m, c, i)
    ensures StopIndex(files0, fetch, cancelled, m, c, k, n) == i
    decreases i - k
  {
    if k < i {
      StopIndexAt(files0, fetch, cancelled, m, c, k + 1, i, n);
    }
  }

  /**
   * The pages a run that gets past the first `i` pages keeps, in page order:
   * those already on disk and those fetched.
   */
  function KeptPages(m: string, c: string, files0: set<PageFile>, fetch: nat -> Fetch, i: nat): (r: seq<PageFile>)
    ensures |r| <= i
    ensures forall j :: 0 <= j < |r| ==> r[j].mangaId == m && r[j].chapterId == c && r[j].index < i
    ensures forall j, k :: 0 <= j < k < |r| ==> r[j].index < r[k].index
  {
    if i == 0 then []
    else
      var page := PageFile(m, c, i - 1);
      KeptPages(m, c, files0, fetch, i - 1)
      + (if page in files0 || fetch(i - 1) == Fetched then [page] else [])
  }

  /** A page is kept exactly when it was on disk or its fetch succeeded. */
  lemma {:induction false} KeptPagesExactly(m: string, c: string, files0: set<PageFile>, fetch: nat -> Fetch, i: nat, j: nat)
    requires j < i
    ensures PageFile(m, c, j) in KeptPages(m, c, files0, fetch, i)
        <==> PageFile(m, c, j) in files0 || fetch(j) == Fetched
  {
    var page := PageFile(m, c, i - 1);
    var prev := KeptPages(m, c, files0, fetch, i - 1);
    var r := KeptPages(m, c, files0, fetch, i);
    assert r == prev + (if page in files0 || fetch(i - 1) == Fetched then [page] else []);
    if j < i - 1 {
      KeptPagesExactly(m, c, files0, fetch, i - 1, j);
    }
  }

  /** The pages among the first `i` that a run writes to disk. */
  ghost function FetchedPages(m: string, c: string, files0: set<PageFile>, fetch: nat -> Fetch, i: nat): set<PageFile>
  {
    set j: nat | j < i && PageFile(m, c, j) !in files0 && fetch(j) == Fetched :: PageFile(m, c, j)
  }

  /** The chapter ids of a list grow by one when a row is appended. */
  lemma IdsOfSnoc(list: seq<DownloadedChapter>, row: DownloadedChapter)
    ensures (set k | 0 <= k < |list + [row]| :: (list + [row])[k].chapterId)
         == (set k | 0 <= k < |list| :: list[k].chapterId) + {row.chapterId}
  {
    var l2 := list + [row];
    var before := set k | 0 <= k < |list| :: list[k].chapterId;
    var after := set k | 0 <= k < |l2| :: l2[k].chapterId;
    forall x | x in before
      ensures x in after
    {
      var k :| 0 <= k < |list| && list[k].chapterId == x;
      assert l2[k] == list[k];
    }
    assert l2[|list|] == row;
  }

  class DownloadRepository {
    /** `ongoingDownloads`: chapter id to "still wanted". */
    var ongoing: map<string, bool>
    /** `runningDownloads`. */
    var running: set<string>
    /** The `downloaded_manga` table by primary key. */
    var mangaDb: map<string, DownloadedManga>
    /** The `downloaded_chapters` table by primary key. */
    var chapterDb: map<string, DownloadedChapter>
    /** The page files on disk. */
    var files: set<PageFile>

    /** Every row sits under its own primary key. */
    ghost predicate Valid()
      reads this
    {
      && (forall k :: k in mangaDb ==> mangaDb[k].mangaId == k)
      && (forall k :: k in chapterDb ==> chapterDb[k].chapterId == k)
    }

    constructor(mangaDb: map<string, DownloadedManga>, chapterDb: map<string, DownloadedChapter>, files: set<PageFile>)
      requires forall k :: k in mangaDb ==> mangaDb[k].mangaId == k
      requires forall k :: k in chapterDb ==> chapterDb[k].chapterId == k
      ensures Valid()
      ensures ongoing == map[] && running == {}
      ensures this.mangaDb == mangaDb && this.chapterDb == chapterDb && this.files == files
    {
      ongoing := map[];
      running := {};
      this.mangaDb := mangaDb;
      this.chapterDb := chapterDb;
      this.files := files;
    }

    /** `isChapterDownloaded`: whether a chapter row exists. */
    method IsChapterDownloaded(chapterId: string) returns (r: bool)
      ensures r <==> chapterId in chapterDb
    {
      r := chapterId in chapterDb;
    }

    /** `cancelDownload`: the chapter's flag becomes false. */
    method CancelDownload(chapterId: string)
      modifies this
      ensures ongoing == old(ongoing)[chapterId := false]
      ensures running == old(running) && mangaDb == old(mangaDb) && chapterDb == old(chapterDb) && files == old(files)
    {
      ongoing := ongoing[chapterId := false];
    }

    /** `updateRunningDownloads`: adds or removes the one id. */
    method UpdateRunningDownloads(chapterId: string, isAdding: bool)
      modifies this
      ensures chapterId in running <==> isAdding
      ensures forall other :: other != chapterId ==> (other in running <==> other in old(running))
      ensures ongoing == old(ongoing) && mangaDb == old(mangaDb) && chapterDb == old(chapterDb) && files == old(files)
    {
      if isAdding {
        running := running + {chapterId};
      } else {
        running := running - {chapterId};
      }
    }

    /**
     * `downloadChapter`, run to its end. `fetch` answers for each page the
     * image loader's result; `cancelled(k)` says whether `cancelDownload`
     * arrives before check `k` (the page checks `0 .. |imageUrls| - 1`, then
     * the final check `|imageUrls|`); `now` is the clock reading.
     */
    method DownloadChapter(manga: Models.Manga, chapterId: string, chapterTitle: string, chapterNumber: real,
                           imageUrls: seq<string>, now: int, fetch: nat -> Fetch, cancelled: nat -> bool)
      returns (end: DownloadEnd)
      requires Valid()
      modifies this
      ensures Valid()
      ensures ongoing == old(ongoing) - {chapterId}
      ensures running == old(running) - {chapterId}
      ensures mangaDb == if manga.id in old(mangaDb) then old(mangaDb)
                         else old(mangaDb)[manga.id := NewMangaRecord(manga, now)]
      ensures var n := |imageUrls|;
              var stop := StopIndex(old(files), fetch, cancelled, manga.id, chapterId, 0, n);
              && files == old(files) + FetchedPages(manga.id, chapterId, old(files), fetch, stop)
              && (end == Completed <==>
                    RunsThrough(old(files), fetch, cancelled, manga.id, chapterId, n) && !cancelled(n))
              && (end == Cancelled <==> cancelled(stop) && RunsThrough(old(files), fetch, cancelled, manga.id, chapterId, stop))
              && (end == Completed ==> chapterDb == old(chapterDb)[chapterId := DownloadedChapter(
                    chapterId, manga.id, chapterTitle, chapterNumber, now,
                    KeptPages(manga.id, chapterId, old(files), fetch, n))])
              && (end != Completed ==> chapterDb == old(chapterDb))
    {
      ghost var files0 := files;
      StartDownload(manga, chapterId, now);
      var imagePaths, i;
      imagePaths, end, i := FetchPages(manga.id, chapterId, |imageUrls|, fetch, cancelled);
      if end == Completed {
        end := SaveChapter(DownloadedChapter(chapterId, manga.id, chapterTitle, chapterNumber, now, imagePaths),
                           cancelled(i));
      }
      StopIndexAt(files0, fetch, cancelled, manga.id, chapterId, 0, i, |imageUrls|);
      ongoing := ongoing - {chapterId};
      UpdateRunningDownloads(chapterId, false);
    }

    /** The start of `downloadChapter`: flag and running set, then the manga row if it is missing. */
    method StartDownload(manga: Models.Manga, chapterId: string, now: int)
      requires Valid()
      modifies this
      ensures Valid()
      ensures ongoing == old(ongoing)[chapterId := true]
      ensures running == old(running) + {chapterId}
      ensures mangaDb == if manga.id in old(mangaDb) then old(mangaDb)
                         else old(mangaDb)[manga.id := NewMangaRecord(manga, now)]
      ensures chapterDb == old(chapterDb) && files == old(files)
    {
      ongoing := ongoing[chapterId := true];
      UpdateRunningDownloads(chapterId, true);
      if manga.id !in mangaDb {
        mangaDb := mangaDb[manga.id := NewMangaRecord(manga, now)];
      }
    }

    /** The final cancellation check of `downloadChapter`, then the chapter row. */
    method SaveChapter(chapter: DownloadedChapter, cancelledNow: bool) returns (end: DownloadEnd)
      requires Valid()
      requires chapter.chapterId in ongoing && ongoing[chapter.chapterId]
      modifies this
      ensures Valid()
      ensures end == Completed <==> !cancelledNow
      ensures end != Failed
      ensures end == Completed ==> chapterDb == old(chapterDb)[chapter.chapterId := chapter]
      ensures end == Cancelled ==> chapterDb == old(chapterDb)
      ensures ongoing == if cancelledNow then old(ongoing)[chapter.chapterId := false] else old(ongoing)
      ensures mangaDb == old(mangaDb) && files == old(files) && running == old(running)
    {
      if cancelledNow {
        CancelDownload(chapter.chapterId);
      }
      if chapter.chapterId in ongoing && ongoing[chapter.chapterId] == false {
        end := Cancelled;
      } else {
        chapterDb := chapterDb[chapter.chapterId := chapter];
        end := Completed;
      }
    }

    /**
     * The page loop of `downloadChapter`: before each page the cancellation
     * flag is checked; a page already on disk is kept without a fetch, a
     * fetched page is written and kept, a failed fetch is skipped.
     */
    method FetchPages(m: string, chapterId: string, n: nat, fetch: nat -> Fetch, cancelled: nat -> bool)
      returns (imagePaths: seq<PageFile>, end: DownloadEnd, i: nat)
      requires chapterId in ongoing && ongoing[chapterId]
      modifies this
      ensures mangaDb == old(mangaDb) && chapterDb == old(chapterDb) && running == old(running)
      ensures i <= n
      ensures RunsThrough(old(files), fetch, cancelled, m, chapterId, i)
      ensures imagePaths == KeptPages(m, chapterId, old(files), fetch, i)
      ensures files == old(files) + FetchedPages(m, chapterId, old(files), fetch, i)
      ensures end == Completed ==> i == n && ongoing == old(ongoing)
      ensures end == Cancelled ==> i < n && cancelled(i) && ongoing == old(ongoing)[chapterId := false]
      ensures end == Failed ==> i < n && !cancelled(i) && Throws(old(files), fetch, m, chapterId, i)
                                && ongoing == old(ongoing)
    {
      imagePaths := [];
      i := 0;
      end := Completed;
      while i < n
        invariant i <= n
        invariant RunsThrough(old(files), fetch, cancelled, m, chapterId, i)
        invariant imagePaths == KeptPages(m, chapterId, old(files), fetch, i)
        invariant files == old(files) + FetchedPages(m, chapterId, old(files), fetch, i)
        invariant mangaDb == old(mangaDb) && chapterDb == old(chapterDb) && running == old(running)
        invariant ongoing == old(ongoing)
      {
        if cancelled(i) {
          CancelDownload(chapterId);
        }
        if chapterId in ongoing && ongoing[chapterId] == false {
          return imagePaths, Cancelled, i;
        }
        var page := PageFile(m, chapterId, i);
        if page in files {
          imagePaths := imagePaths + [page];
          i := i + 1;
          continue;
        }
        var result := fetch(i);
        if result == FetchThrew {
          return imagePaths, Failed, i;
        }
        if result == Fetched {
          files := files + {page};
          imagePaths := imagePaths + [page];
        }
        i := i + 1;
      }
    }

    /** The ids of the chapter rows of one manga. */
    function ChaptersOf(mangaId: string): (r: set<string>)
      reads this
      ensures forall k :: k in r <==> k in chapterDb && chapterDb[k].mangaId == mangaId
    {
      set k | k in chapterDb && chapterDb[k].mangaId == mangaId
    }

    /**
     * `deleteChapter`: the chapter's page files and row go; the manga row goes
     * too exactly when no chapter of that manga is left.
     */
    method DeleteChapter(chapter: DownloadedChapter)
      requires Valid()
      modifies this
      ensures Valid()
      ensures chapterDb == old(chapterDb) - {chapter.chapterId}
      ensures files == set p | p in old(files) && !(p.mangaId == chapter.mangaId && p.chapterId == chapter.chapterId)
      ensures mangaDb == if ChaptersOf(chapter.mangaId) == {} then old(mangaDb) - {chapter.mangaId} else old(mangaDb)
      ensures ongoing == old(ongoing) && running == old(running)
    {
      files := set p | p in files && !(p.mangaId == chapter.mangaId && p.chapterId == chapter.chapterId);
      chapterDb := chapterDb - {chapter.chapterId};
      var chapters := ChaptersOf(chapter.mangaId);
      if chapters == {} {
        if chapter.mangaId in mangaDb {
          mangaDb := mangaDb - {chapter.mangaId};
        }
      }
    }

    /** The query `getDownloadedChaptersForMangaList`: the manga's chapter rows. */
    method ChaptersForManga(mangaId: string) returns (list: seq<DownloadedChapter>)
      requires Valid()
      ensures forall k :: 0 <= k < |list| ==> list[k].chapterId in chapterDb && chapterDb[list[k].chapterId] == list[k]
      ensures ChaptersOf(mangaId) == set k | 0 <= k < |list| :: list[k].chapterId
    {
      var ids := ChaptersOf(mangaId);
      list := [];
      while ids != {}
        invariant ids <= ChaptersOf(mangaId)
        invariant forall k :: 0 <= k < |list| ==> list[k].chapterId in chapterDb && chapterDb[list[k].chapterId] == list[k]
        invariant ChaptersOf(mangaId) - ids == set k | 0 <= k < |list| :: list[k].chapterId
        decreases |ids|
      {
        var id :| id in ids;
        ghost var prev := list;
        list := list + [chapterDb[id]];
        IdsOfSnoc(prev, chapterDb[id]);
        ids := ids - {id};
      }
    }

    /**
     * `deleteManga`: the manga's directory, all its chapter rows and its row
     * go; nothing of any other manga changes.
     */
    method DeleteManga(manga: DownloadedManga)
      requires Valid()
      modifies this
      ensures Valid()
      ensures ChaptersOf(manga.mangaId) == {}
      ensures chapterDb == map k | k in old(chapterDb) && old(chapterDb)[k].mangaId != manga.mangaId :: old(chapterDb)[k]
      ensures mangaDb == old(mangaDb) - {manga.mangaId}
      ensures files == set p | p in old(files) && p.mangaId != manga.mangaId
      ensures ongoing == old(ongoing) && running == old(running)
    {
      files := set p | p in files && p.mangaId != manga.mangaId;
      var chapters := ChaptersForManga(manga.mangaId);
      ghost var doomed := ChaptersOf(manga.mangaId);
      var i := 0;
      while i < |chapters|
        invariant 0 <= i <= |chapters|
        invariant Valid() && mangaDb == old(mangaDb) && ongoing == old(ongoing) && running == old(running)
        invariant files == set p | p in old(files) && p.mangaId != manga.mangaId
        invariant chapterDb == old(chapterDb) - set k | 0 <= k < i :: chapters[k].chapterId
      {
        ghost var gone := set k | 0 <= k < i :: chapters[k].chapterId;
        chapterDb := chapterDb - {chapters[i].chapterId};
        assert (set k | 0 <= k < i + 1 :: chapters[k].chapterId) == gone + {chapters[i].chapterId};
        i := i + 1;
      }
      assert chapterDb == old(chapterDb) - doomed;
      mangaDb := mangaDb - {manga.mangaId};
    }
  }
}
